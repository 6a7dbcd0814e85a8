# Verified model of the CC1310 bootloader, its update protocol and its measurement tools

The project models the parts of the CC1310 firmware repository whose correctness is not visible in any
one function: the metadata journal that survives power cuts, the boot and update state machine, the
framed serial protocol with its host tool, the I2C slave with its interrupt handler and worker, and the
algorithms of the measurement scripts. `dafny verify dfyconfig.toml` checks everything.

## How the model is built

| file | contents |
|---|---|
| `Words.dfy`, `Crc.dfy`, `CrcCode.dfy`, `CrcValues.dfy`, `SyncPacket.dfy` | machine words; CRC-16 and CRC-32 as bit registers for any generator; the source's word loops; the checksums by value; the radio sync packet |
| `Cobs.dfy`, `Framing.dfy` | byte stuffing and frames, the C and the Python loops, the two stream readers |
| `Package.dfy`, `Layouts.dfy` | firmware packages on the host and their check on the device; all formats byte by byte |
| `Journal.dfy`, `JournalTheorems.dfy`, `MetadataFlash.dfy` | the two-page journal, its theorems, and the code on flash arrays |
| `Device.dfy`, `DeviceTheorems.dfy`, `BootTheorems.dfy`, `BootLedger.dfy`, `SessionTheorems.dfy`, `SessionRuns.dfy`, `Bootloader.dfy` | boot, handoff, confirmation and updater as one state machine; its theorems; what boots, what each frame is answered, when a boot is confirmed; what the boot counter counts; update sessions, frame by frame and over runs; the code in place |
| `Link.dfy`, `LinkTheorems.dfy`, `LinkProgress.dfy`, `LinkRetries.dfy`, `LinkFailures.dfy`, `LinkLag.dfy`, `LinkCollision.dfy`, `RoleLink.dfy`, `HostUpdater.dfy`, `HostRuns.dfy` | host and device over a lossy link; safety; completion without losses, with losses, with failing flash and with late answers; the limit of the safety theorem; set_role; the host tool's loops, and that they are the modelled host |
| `I2cSlave.dfy`, `I2cTheorems.dfy`, `I2cFate.dfy`, `I2cTally.dfy`, `I2cLoopback.dfy`, `I2cDriver.dfy` | the I2C slave under every interleaving; which captures are printed; what the counters count; its loopback window; the interrupt handler's code |
| `EdgeMatch.dfy`, `Ticks.dfy`, `Matcher.dfy` | edge pairing, tick unwrapping, log matching |

Pure code is modelled by functions. Loops and code that updates state are methods and classes proved
against those functions; whole runs are sequences of states related by a step function whose argument
carries every choice of the environment (faults, frames, interrupts, losses).

### What is taken from outside the code

- **Flash.** Programming clears bits only, and only bits its data asks for; it can stop anywhere. An
  interrupted erase of a journal page leaves the page as it was, or no valid record in it; an interrupted
  erase of an application page leaves anything in it. An error return can leave whatever a power cut can
  leave, including a completed operation. A program call behind the end of flash returns an error and
  changes nothing.
- **CRC of torn records.** A strictly partial record body does not have the erased word as its CRC-32.
  That a half-written CRC word is never accepted is proved, not assumed.
- **Link.** Frames keep their order. A corrupted frame is one the reader rejects, so it counts as lost.
  A time-out may happen at any moment.
- **Scheduling.** The I2C interrupt handler runs to completion; the worker can be interrupted between any
  two of its steps, which are its reads and writes of shared variables; only the clearing of a bank with its
  identity bytes (firmware/i2c_slave.c:89-96) is one step, and it touches no bank but the one that is not
  active. Calls of the boot API are not interleaved with each other.
- Times in the measurement scripts are real numbers.

### Where the code differs from its description

- README.md:128 speaks of three *consecutive* unconfirmed boots. The counter is decremented by a
  confirmation, not cleared. It counts all unconfirmed attempts on record since the install, while the
  distance of the two attempt numbers counts the consecutive ones; the two rules agree at exactly the
  records whose counter is below three or equal to that distance (`BootLedger.CounterIsExact`). Two
  consecutive unconfirmed boots can end in the updater (`BootLedger.TwoConsecutiveEndInUpdater`).
- bootloader/bootloader.c:149-150 expects equal sequence numbers after an interrupted append. They cannot
  occur (`JournalTheorems.LiveSpan`), so the tie rules are never used.
- bootloader/bootloader.c:471-472 reserves ACK for a valid write or a valid duplicate. It is also given for a
  block whose programming fails, for a block in front of the write position with other bytes than flash
  has, and for one that reaches over the write position (`SessionTheorems.FailedProgramIsAcknowledged`,
  `StaleBlockIsAcknowledged`, `OverlappingBlockIsAcknowledged`). `SessionTheorems.AckMeans` says exactly
  when ACK is given and when the acknowledged bytes are in flash.
- tools/fw_update.py:7-9 says that a completed set-role returns the device to the application. It does so
  exactly while the boot counter is below its limit (`DeviceTheorems.SetRoleKeepsLimit`); a run in which it
  does not is `BootLedger.SetRoleStaysInUpdater`.
- A failed END leaves an install that SET_ROLE can complete (`SessionTheorems.SetRoleAfterFailedEnd`), so END
  is not the only way out of an update in progress; before an END that is accepted there is none
  (`DeviceTheorems.UnfinishedUntilEnd`, `DeviceTheorems.RunningAgainMeansEnd`).
- tools/fw_update.py:120-131 repeats a request whose answer is lost. That does not help END: the device has
  rebooted, and the host reports a failure although the image is installed (`LinkRetries.EndAnswerLost`,
  `LinkRetries.LostCompleteIsFinal`).
- The bound of a session to the application slot fails after a BEGIN that is answered ERROR
  (`SessionTheorems.FailedBeginCanEscape`). It holds in every session without one
  (`SessionRuns.SessionsStayInSlot`), and `SessionTheorems.ProgramsStayInSlot` says exactly which sessions
  some sequence of DATA frames can drive out of the slot.
- A flash operation that reports success can leave other bytes than the image, with its CRC-32: an END that
  is accepted vouches for the CRC only. It does so exactly if the last repeated BEGIN that failed while
  erasing, since the last READY, left flash in a state that is not on its way to the image
  (`LinkTheorems.FlashSucceeds`); a run in which it does is `LinkCollision.SuccessWithOtherBytes`.
- The retries of tools/fw_update.py:120-131 do not cover time-outs that come too early. Each leaves a stale
  answer that costs every later request one transmission, so five of them in a whole operation make it fail
  although nothing was lost; with fewer it completes (`LinkLag.LateAnswers`).
- Not every capture the I2C handler posts is printed: exactly those posted while the worker is between reading
  the count of the mailbox and clearing it are lost (`I2cFate.PostFate`, `I2cFate.LosingRun`).
- The worker increments the error counter, which the handler increments too, without a lock
  (firmware/i2c_slave.c:270). Errors of the handler that fall between its load and its store are overwritten;
  otherwise the counter is exact (`I2cTally.RunsAreTallied`, `I2cTally.OverwritingRun`).

## Model

| member | source | states |
|---|---|---|
| Crc.FeedIsXorThenShift | bootloader/bootloader.c:101-112 | XORing a block into the register and then shifting, as the byte loops do, is bit-serial division, for every generator and every block up to the register's width |
| Crc.BurstChangesRemainder | bootloader/bootloader.c:87-112 | for every generator with a nonzero last term, any change confined to a window no wider than the register changes the remainder, whatever surrounds it |
| Crc.GeneratorGoesUnnoticed | bootloader/bootloader.c:87-112 | the bound is sharp: for every generator, flipping a bit together with the generator's bits behind it leaves the remainder as it was, in every message |
| Crc.Crc16DetectsBursts | bootloader/bootloader.c:101-112 | any two messages of any length that differ within 16 consecutive bits, at any bit offset, have different CRC-16 |
| Crc.Crc32DetectsBursts | bootloader/bootloader.c:87-99 | the same for 32 consecutive bits and CRC-32 |
| Crc.ByteWindowIsBurst | bootloader/bootloader.c:87-112 | replacing n adjacent bytes is a burst of 8n bits, so changes of one or two (CRC-16) and up to four (CRC-32) adjacent bytes are covered |
| CrcCode.Shift16IsStep | bootloader/bootloader.c:108 | the 16-bit shift with its mask, its constant 0x1021 and its truncation is one step of the bit register |
| CrcCode.Shift32IsStep | bootloader/bootloader.c:95 | the 32-bit shift with 0xEDB88320 is one step of the reflected register |
| CrcCode.CalculateCrc16 | bootloader/bootloader.c:101-112 | the nested loops on 16-bit words compute the remainder of the bit-serial division |
| CrcCode.CalculateCrc32 | bootloader/bootloader.c:87-99 | the nested loops on 32-bit words, with the complement at the end, compute that of the reflected one |
| CrcValues.Crc32Grows | bootloader/bootloader.c:87-99 | the CRC-32 of the empty message is zero, and how one more byte changes it, on words |
| CrcValues.Crc16Grows | bootloader/bootloader.c:101-112 | the CRC-16 of the empty message is 0xFFFF, and how one more byte changes it |
| CrcValues.ResidueIsFixed | bootloader/bootloader.c:87-99 | every message followed by its own CRC-32 has CRC-32 0x2144DF1C |
| CrcValues.Crc16OfZero | bootloader/bootloader.c:101-112 | the CRC-16 of a zero byte is 0xE1F0 |
| SyncPacket.TrailerIsResidueZero | firmware/firmware_tx.c:119-132 | a message followed by two bytes leaves remainder zero exactly when those bytes are its big-endian CRC-16 |
| SyncPacket.Transmitter.BuildSyncPacket | firmware/firmware_tx.c:179-200 | every packet carries header, sequence number and payload, advances the sequence modulo 256, and has CRC-16 remainder zero over all 30 bytes whatever the filler |
| Cobs.RoundTrip | bootloader/bootloader.c:257-293 | decoding the encoding of any byte string returns it |
| Cobs.EncodingShape | bootloader/bootloader.c:257-279 | an encoding contains no zero byte, has length n + 1 + full blocks, and there are at most n/254 of these, the empty block behind a final full one included |
| Cobs.DecodeShrinks | bootloader/bootloader.c:281-293 | any nonempty input that decodes yields fewer bytes than were read |
| Cobs.EncodeInto | bootloader/bootloader.c:257-279 | the C loop with its patched code bytes writes exactly the encoding into the caller's buffer and nothing behind it |
| Cobs.EncodeGrowing | tools/fw_protocol.py:18-28 | the Python loop computes the same encoding |
| Cobs.DecodeInPlace | bootloader/bootloader.c:281-293 | the in-place decoder never writes at or past its read index, accepts exactly the strings the reference decoder accepts and leaves the same result, touching nothing behind its input |
| Cobs.DecodeGrowing | tools/fw_protocol.py:31-41 | the Python decoder accepts the same strings with the same result |
| Layouts.StuffedBlocks | bootloader/bootloader.c:257-279 | the equations that determine the code: a short last block, a block that a zero ends, a full block |
| Framing.UnpackPacket | tools/fw_protocol.py:44-57 | checking an unstuffed packet returns the frame that was packed |
| Framing.UnpackExact | tools/fw_protocol.py:49-57 | and nothing but a packed frame passes the checks |
| Framing.CheckDecoded | bootloader/bootloader.c:336-345 | the device's checks, with the expected length truncated to 16 bits, equal the exact ones |
| Framing.DevicePayloadBound | bootloader/bootloader.c:318-348 | no byte stream makes the device return a frame with more than 151 payload bytes |
| Framing.FitsDevice | bootloader/bootloader.c:321-331 | a frame fits the device's buffer exactly when its payload has at most 151 bytes |
| Framing.FrameDelivered | bootloader/bootloader.c:318-348 | a frame that fits and starts on a boundary is returned intact and leaves the reader on a boundary |
| Framing.Resynchronises | bootloader/bootloader.c:318-348 | after any garbage and a delimiter, whatever the reader held, the next frame is delivered and the rest is read as from the start |
| Framing.StreamRoundTrip | tools/fw_update.py:109-118 | every sequence of frames sent back to back is read back, by the host always and by the device for payloads up to 151 bytes |
| Framing.ReadProtocolFrame | bootloader/bootloader.c:318-348 | the device's reader loop returns the first frame of its byte stream and stops behind it |
| Framing.DecodeWire | tools/fw_protocol.py:49-57 | the host's decode accepts exactly the packed frames behind stripped delimiters |
| Framing.ReadFrame | tools/fw_update.py:109-118 | the host's reader loop returns the first frame of its byte stream |
| Framing.WriteProtocolFrame | bootloader/bootloader.c:295-316 | the device's writer, with its two buffers, sends exactly the bytes both readers turn back into the frame, for every payload up to 151 bytes |
| Framing.EncodeFrame | tools/fw_protocol.py:44-46 | the host's encode sends the same bytes, and fails exactly for payloads whose length does not fit 16 bits |
| Layouts.FrameLayout | bootloader/bootloader.c:295-316 | the bytes of a packet by offset, with the CRC-16 of all before it, and the closing zero |
| Package.HeaderRoundTrip | tools/fw_package.py:12-32 | header fields survive packing and loading at their little-endian offsets |
| Package.BuildThenParse | tools/fw_package.py:28-58 | a package can be built exactly for versions up to 0xFFFFFF and padded images of 1 to 0x17000 bytes; it parses back to the padded image and all fields; the device accepts its header exactly for target CC1M |
| Package.ParsedHeaderOnDevice | bootloader/bootloader.c:417-425 | of any package that parses, the device accepts the header exactly when the target matches and the image is a whole number of words |
| Package.DamagedImageRejected | tools/fw_package.py:40-44 | damage confined to four adjacent image bytes is always rejected by the image CRC |
| Package.ChunksAccepted | tools/fw_update.py:233-236 | every chunk the host cuts at a word offset passes the device's DATA checks and ends on a word offset |
| Layouts.HeaderLayout | bootloader/bootloader.c:59-69 | the fields of a package header by offset |
| Layouts.ParseExactly | tools/fw_package.py:28-46 | exactly which byte strings the host takes for a package |
| Layouts.DeviceAcceptsExactly | bootloader/bootloader.c:417-425 | exactly which header bytes the device accepts |
| Layouts.PadLayout | tools/fw_package.py:49-53 | padding is 0xFF up to the next whole word, and no more |
| Layouts.RecordLayout | bootloader/bootloader.c:43-57 | the fields of a metadata record by word, and its CRC word |
| Layouts.WordsAsBytes | bootloader/bootloader.c:124-131 | the bytes the record CRC runs over are its words, low byte first |
| JournalTheorems.CutSlot | bootloader/bootloader.c:217-226 | a slot in which an append stopped, in its body or its CRC word, is unreadable or holds exactly the new record |
| JournalTheorems.PickLast | bootloader/bootloader.c:133-155 | over consecutive sequence numbers the serial comparison ends on the last record, across the 2^32 wrap |
| JournalTheorems.NewestIsLast | bootloader/bootloader.c:138-167 | selection over both pages finds the record appended last |
| JournalTheorems.LiveSpan | bootloader/bootloader.c:133-136 | in every journal in order the live records of both pages are at most 169 numbers apart, pairwise distinct, and ordered by the serial comparison as they were appended |
| JournalTheorems.VictimIsOld | bootloader/bootloader.c:212-215 | the page erased in a rotation never holds the record a read returns |
| JournalTheorems.AppendIsAtomic | bootloader/bootloader.c:197-231 | for every fault at any point of an append the journal stays in order and a read returns the previous record or the complete new one; success means the new one |
| JournalTheorems.JournalIsDurable | bootloader/bootloader.c:138-231 | over every run of appends with faults, a read returns what one append wrote, and no later append was reported successful: nothing successful is lost, nothing is invented, a valid record never disappears |
| JournalTheorems.FactoryIsInv | tools/fw_metadata_hex.py:57-66 | a factory record is a journal in order that reads back as that record |
| Layouts.AppendPlace | bootloader/bootloader.c:197-216 | into which slot of which page an append goes, and with which number |
| MetadataFlash.IsErasedRecord | bootloader/bootloader.c:114-122 | the word loop decides whether all twelve words are erased |
| MetadataFlash.Flash.FindNewestRecordInPage | bootloader/bootloader.c:138-155 | the scan loop on a flash page computes the specified selection |
| MetadataFlash.Flash.FindNewestMetadataRecord | bootloader/bootloader.c:157-167 | the choice between the pages is the specified one |
| MetadataFlash.Flash.ReadBootMetadata | bootloader/bootloader.c:169-175 | the contents of the selected record |
| MetadataFlash.Flash.FindFirstErasedRecord | bootloader/bootloader.c:187-195 | the index of the first erased slot |
| MetadataFlash.Flash.AppendMetadataRecord | bootloader/bootloader.c:197-231 | the code on the two flash arrays leaves exactly the contents the atomicity theorem is about, with every fault |
| DeviceTheorems.StepKeeps | bootloader/bootloader.c:233-249 | every boot, handoff, confirmation, update request and protocol frame, with every fault, keeps the device invariant |
| DeviceTheorems.RunsKeepInvariant | bootloader/bootloader.c:427-552 | in every reachable state a newest record that is VALID has the CRC-32 of application flash over its size, the boot counter is at most three and covers the attempts since the last confirmed one, and an active session writes only behind any valid image |
| DeviceTheorems.DataKeeps | bootloader/bootloader.c:466-482 | no DATA frame in any session, failed BEGINs included, changes a byte that a valid record covers, and the invariant is kept |
| DeviceTheorems.FrameKeeps | bootloader/bootloader.c:436-514 | every frame keeps the invariant; in particular END and SET_ROLE record an image as valid only if flash holds it at that moment |
| DeviceTheorems.BeginIsUnfinished | bootloader/bootloader.c:445-465 | a BEGIN that has changed application flash, or answered READY, has its record as the newest one, whether it went on, failed or lost power |
| DeviceTheorems.UnfinishedUntilEnd | bootloader/bootloader.c:483-511 | from then on, over every run in which no END is accepted, nothing completes the update: resets, failed appends, repeated BEGINs, refused ENDs and SET_ROLE included |
| DeviceTheorems.PendingStep | bootloader/bootloader.c:436-552 | a step takes the BEGIN record out of force exactly if it leaves the record of an END or SET_ROLE as the newest one |
| DeviceTheorems.UnfinishedStaysInUpdater | bootloader/bootloader.c:535-546 | between a durable BEGIN record and such a record every boot ends in the updater, over every run, an END whose append failed included |
| DeviceTheorems.RunningAgainMeansEnd | bootloader/bootloader.c:483-546 | an application that runs again after a BEGIN was recorded by an accepted END, or by a later SET_ROLE |
| DeviceTheorems.RunsCountBoots | bootloader/bootloader.c:233-241 | over every run the stored counter is at least the number of unconfirmed handoffs since the last install and at most three, and no handoff is confirmed twice |
| BootLedger.StepEnters | bootloader/bootloader.c:233-249 | every step keeps the newest record in agreement with the ledger of recorded attempts and confirmations |
| BootLedger.CounterIsExact | bootloader/bootloader.c:535-549 | over every run the counter equals the number of unconfirmed attempts on record since the install, the distance of the attempt numbers that of the consecutive ones, and the record tells whether the documented rule holds |
| BootLedger.TwoConsecutiveEndInUpdater | bootloader/bootloader.c:233-241 | a run in which two consecutive unconfirmed boots of a good image are enough for the updater |
| BootLedger.SetRoleStaysInUpdater | bootloader/bootloader.c:502-511 | at its end SET_ROLE is answered COMPLETE and the next boot ends in the updater again |
| DeviceTheorems.ZeroGuardUnused | bootloader/bootloader.c:236-240 | a confirmation that finds its attempt unconfirmed finds the counter positive, so the zero guard is never needed |
| DeviceTheorems.SetRoleKeepsLimit | bootloader/bootloader.c:502-511 | after a completed SET_ROLE the image boots again exactly if the counter was below its limit; otherwise every boot ends in the updater |
| DeviceTheorems.HandoffIsRecorded | bootloader/bootloader.c:535-550 | a handoff implies one more attempt on record, the recorded role and an attempt number that a confirmation will match |
| BootTheorems.BootDecides | bootloader/bootloader.c:373-382 | a boot hands over only from, and without a fault exactly from, a valid record with fewer than three unconfirmed attempts, a size that fits, a stack pointer in RAM, an odd entry address in application flash and the recorded CRC-32, written out on the bytes |
| BootTheorems.StartedIsStartable | bootloader/bootloader.c:535-550 | so it is for every application started in any run |
| BootTheorems.AnswerTable | bootloader/bootloader.c:436-514 | which frame gets which answer, with all conditions written out, and that an ERROR changes nothing but a remembered header and role |
| BootTheorems.BeginThatFails | bootloader/bootloader.c:445-460 | what a BEGIN answered ERROR leaves of the session |
| BootTheorems.HelloAnswered | bootloader/bootloader.c:437-444 | HELLO changes nothing and is answered with the session's metadata, field by field |
| BootTheorems.HelloAfterBoot | bootloader/bootloader.c:437-444 | after every boot of any run that ends in the updater that is the newest record, or the defaults |
| BootTheorems.ConfirmedAfterBoth | firmware/firmware_startup.c:12-33 | over every run a report changes the record only once both subsystems have reported since the boot |
| BootTheorems.BothConfirm | firmware/firmware_startup.c:12-33 | and without a fault the report that makes them both confirms the attempt, and no other does |
| BootTheorems.HandoffSpent | firmware/boot_api.c:30-41 | the handoff is spent only by a recorded confirmation, and is tried once |
| BootTheorems.RequestThatFails | bootloader/bootloader.c:243-249 | a request reported as failed, and no other, leaves the application running |
| DeviceTheorems.RequestLeadsToUpdater | bootloader/bootloader.c:243-249 | a recorded update request changes only the state field, and the next boot ends in the updater whatever fails |
| DeviceTheorems.SetRoleRecords | bootloader/bootloader.c:502-511 | a completed SET_ROLE leaves flash alone and records the session's metadata with the new role |
| DeviceTheorems.EndRecords | bootloader/bootloader.c:483-501 | a completed END records the header's size, CRC and version, the role of BEGIN and cleared counters |
| DeviceTheorems.InfoFields | tools/fw_update.py:133-143 | the fields of the INFO payload as the host loads them |
| SessionTheorems.ReadyIsClean | bootloader/bootloader.c:445-465 | READY means header and role taken over, slot erased, nothing written |
| SessionTheorems.AcceptedInsideSlot | bootloader/bootloader.c:467-477 | in a session under an accepted header a block at the write position that passes the wrapping bounds check lies inside image and slot; a block whose end wraps 2^32 is never programmed |
| SessionTheorems.BoundedData | bootloader/bootloader.c:466-482 | there DATA changes flash only between position and image end, keeps the bounds whatever flash can take, and extends the written part by the block exactly if flash could take it |
| SessionRuns.StepNoted | bootloader/bootloader.c:436-514 | every frame of every kind, with every fault, keeps bounds and contents of a session unless a BEGIN fails |
| SessionRuns.SessionsStayInSlot | bootloader/bootloader.c:445-482 | over every run, in every session without a failed BEGIN since READY: position word-aligned and within the image, flash in front of it the concatenation of accepted blocks exactly if it could take each, program calls inside the image, and no sequence of DATA frames that leaves the slot |
| SessionRuns.PositionsAreAligned | bootloader/bootloader.c:466-482 | in every session of every run, failed BEGINs included, the position is aligned and inside flash, and the escape condition is exact |
| SessionTheorems.AckMeans | bootloader/bootloader.c:466-482 | exactly when a DATA frame is acknowledged, and exactly when the acknowledged bytes are then in flash |
| SessionTheorems.FailedProgramIsAcknowledged | bootloader/bootloader.c:475-481 | a block is acknowledged although its programming failed and wrote nothing |
| SessionTheorems.StaleBlockIsAcknowledged | bootloader/bootloader.c:471-481 | a block in front of the position is acknowledged although flash has other bytes |
| SessionTheorems.OverlappingBlockIsAcknowledged | bootloader/bootloader.c:471-481 | a block over the position is acknowledged although its end is not written |
| SessionTheorems.SetRoleAfterFailedEnd | bootloader/bootloader.c:483-503 | after a failed END, SET_ROLE is accepted exactly for images that may boot |
| SessionTheorems.ProgramsStayInSlot | bootloader/bootloader.c:466-477 | some sequence of DATA frames, with whatever faults, makes a session program outside the slot if and only if its header reaches behind the slot and leaves room for a word behind the position |
| SessionTheorems.FailedBeginCanEscape | bootloader/bootloader.c:445-451 | a BEGIN answered ERROR leaves an active session at any position active under the rejected header, from which it can escape the slot |
| Bootloader.MainThread | bootloader/bootloader.c:535-550 | boot decides as specified and hands over only after the attempt was recorded |
| Bootloader.ConfirmApplicationBoot | bootloader/bootloader.c:233-241 | confirms only the attempt the newest record names, once, and otherwise leaves flash alone |
| Bootloader.Application.ConfirmBoot | firmware/boot_api.c:30-41 | the handoff is spent exactly when the confirmation was recorded |
| Bootloader.Application.UpdateReadiness | firmware/firmware_startup.c:12-33 | the second subsystem to report triggers the confirmation; later reports never touch flash |
| Bootloader.Updater.EraseApplicationFlash | bootloader/bootloader.c:364-371 | erases the slot page by page, stops at the first failure, never touches the reserved page |
| Bootloader.Updater.FlashProgram | bootloader/bootloader.c:475-478 | ANDs the block into flash, or leaves what an interrupted program leaves |
| Bootloader.Updater.Begin | bootloader/bootloader.c:445-465 | header taken over, checked, recorded, erased, answered, in this order and with every failure |
| Bootloader.Updater.Data | bootloader/bootloader.c:466-482 | programs, advances and answers as the session theorems assume |
| Bootloader.Updater.Serve | bootloader/bootloader.c:436-514 | one round of the updater changes flash, journal and session as specified and gives the specified answer |
| LinkTheorems.BeginServed | bootloader/bootloader.c:445-465 | a BEGIN of the job starts the session afresh or leaves a session of the job one of the job |
| LinkTheorems.DataServed | bootloader/bootloader.c:466-482 | a DATA frame of the job, new or repeated, programmed or interrupted, keeps flash on its way to the image |
| LinkTheorems.EndServed | bootloader/bootloader.c:483-501 | END commits only a complete session of the job |
| LinkTheorems.AcceptTags | tools/fw_update.py:120-131 | a response with the current sequence number answers the current request, although numbers repeat every 65536 requests, and nothing older is in flight behind it |
| LinkTheorems.EventKeeps | tools/fw_update.py:120-131 | every transmission, time-out, response, loss, served frame, reset and boot keeps the invariant of the whole system |
| LinkTheorems.FlashSucceeds | tools/fw_update.py:223-243 | over every run with losses, repeats, resets and flash faults, success means: newest record with the package's size, CRC, version and the role, VALID, or REQUESTED if the application may request an update meanwhile; CRC-32 of flash equal to the package's; and flash equal to the image byte for byte if and only if no failed erase of a repeated BEGIN has led the session astray |
| LinkTheorems.ProgrammedExactly | bootloader/bootloader.c:475-478 | a block written brings flash on its way to the image exactly if it was before |
| LinkCollision.SameCrc | bootloader/bootloader.c:87-99 | eight 0xFF bytes and a string with only more bits cleared have the same CRC-32 |
| LinkCollision.SuccessWithOtherBytes | tools/fw_update.py:223-243 | the exception is real: on every device in update mode a run in which the host reports success and flash holds other bytes than the image |
| RoleLink.EventKeepsRole | tools/fw_update.py:120-131 | every event of a set-role operation keeps: a COMPLETE with its number in flight means the role is on record |
| RoleLink.SetRoleSucceeds | tools/fw_update.py:245-247 | over every run with losses, repeats, resets and flash faults, success of set_role means the newest record names the role, and if it is valid flash holds its image |
| RoleLink.LosslessSetRole | tools/fw_update.py:245-247 | without losses and faults one round decides: success exactly for a good image and one of the three roles |
| LinkProgress.LosslessFlashCompletes | tools/fw_update.py:223-243 | without losses and faults every valid job completes on every device in update mode, after exactly one request per 128-byte block and two more |
| LinkFailures.FailedRound | bootloader/bootloader.c:475-481 | a block whose programming fails is sent again, from the same position and with all retries |
| LinkFailures.FailureHappens | bootloader/bootloader.c:475-478 | such rounds exist at every block, with everything an interrupted program can leave |
| LinkFailures.FailuresSurvived | tools/fw_update.py:232-243 | over every lossless run with failing programs, whatever they leave, each request either fails and is made again or is one of those that were left |
| LinkFailures.FlashSurvivesFailures | tools/fw_update.py:223-243 | so for every package the device accepts flash has completed, with the image installed, after one request per block, one per failure and two more |
| LinkRetries.RepeatedData | bootloader/bootloader.c:466-482 | in every session a repeated DATA frame changes nothing and gets the same answer |
| LinkRetries.RepeatedBegin | bootloader/bootloader.c:445-465 | a repeated BEGIN gets the same answer and leaves the same slot, session and newest record |
| LinkRetries.RoundIsExchange | tools/fw_update.py:120-131 | sending, serving and receiving in the system of host, link and device is one exchange of host and updater |
| LinkRetries.LossesSurvived | tools/fw_update.py:120-131 | with every pattern of at most four lost transmissions or answers for each request, END's answer excepted, the operation goes through from any point on |
| LinkRetries.TooManyLosses | tools/fw_update.py:120-131 | a request that loses all its transmissions makes the host give up |
| LinkRetries.FlashSurvivesLosses | tools/fw_update.py:223-243 | so for every package the device accepts, flash completes in those runs, with the image in flash byte for byte and a valid record of it |
| LinkRetries.EndAnswerLost | bootloader/bootloader.c:483-501 | an END served whose answer is lost has left the image in flash and the job's valid record as the newest one |
| LinkRetries.LostCompleteIsFinal | tools/fw_update.py:120-131 | and from then on no run, whatever is repeated, lost or reset, lets the host report success |
| LinkLag.LaggingRequest | tools/fw_update.py:120-131 | with stale answers in flight a request is sent once for each of them, once for each of its own premature time-outs and once more, and those time-outs add to the lag |
| LinkLag.LateAnswers | tools/fw_update.py:120-131 | without losses, for every pattern of premature time-outs, the operation completes if and only if there are fewer than five of them in all requests together |
| LinkLag.FlashWithLateAnswers | tools/fw_update.py:223-243 | so for every package the device accepts flash completes, with the image installed, exactly in those runs |
| HostRuns.ToolFollowsHost | tools/fw_update.py:120-131 | in every run of host, link and device, the tool fed with what the host reads ends in the host's phase and sends the host's frames |
| HostRuns.ToolSuccessIsFlashed | tools/fw_update.py:223-243 | so the tool's success on the reads of a run means what the link theorem says |
| HostRuns.ToolFollowsRoleHost | tools/fw_update.py:120-131 | the same for set_role |
| HostRuns.ToolSuccessIsRecorded | tools/fw_update.py:245-247 | so its success means that the role is on record |
| HostUpdater.RequestMovesHost | tools/fw_update.py:120-131 | what a request of flash reads moves the modelled host to its next phase or to giving up, and what it sends is what that host sends |
| HostUpdater.FirstOnTheWire | tools/fw_update.py:228-231 | what is sent after READY: the first block, or nothing if the device asks to resume |
| HostUpdater.NextOnTheWire | tools/fw_update.py:232-240 | after an ACK, or a NACK that is not ahead, the next frame sent is the block at the reported position, moved or not, or END once that has reached the size; after any other answer nothing |
| HostUpdater.LastOnTheWire | tools/fw_update.py:243 | COMPLETE ends the operation |
| HostUpdater.Updater.Request | tools/fw_update.py:120-131 | any request sends copies of one frame, one for each read it makes, and returns the first response with its number and an expected type |
| HostUpdater.Updater.SetRole | tools/fw_update.py:245-247 | set_role succeeds exactly when the modelled host of set_role does |
| HostUpdater.Updater.Transfer | tools/fw_update.py:228-243 | BEGIN, block and END loops succeed exactly when the modelled host, fed with the same responses, is done, and send exactly its frames |
| HostUpdater.Updater.Flash | tools/fw_update.py:223-243 | flash sends nothing for a package that is unsound or does not suit the device; otherwise it succeeds exactly when the modelled host is done, and sends exactly its frames |
| I2cTheorems.TransmitBus | firmware/i2c_slave.c:117-139 | the transmit buffer holds the bytes read so far at their offsets modulo 64, across the wrap of the 8-bit pointer |
| I2cTheorems.StopMailbox | firmware/i2c_slave.c:170-218 | a stop after bytes to report posts the whole transaction to an empty mailbox, and leaves a full one alone |
| I2cTheorems.InterruptKeeps | firmware/i2c_slave.c:105-225 | every interrupt, at any worker statement, keeps the slave's invariant and all indices in range |
| I2cTheorems.WorkKeeps | firmware/i2c_slave.c:255-275 | every step of the worker, down to single reads and writes of shared variables, keeps it |
| I2cTheorems.DumpsAreWhole | firmware/i2c_slave.c:255-275 | under every interleaving a nonempty capture the worker prints is one whole master transaction |
| I2cTheorems.CapturesAreExact | firmware/i2c_slave.c:188-215 | for plain transfers of at most 64 bytes that is the transfer's own register and all its bytes |
| I2cTheorems.ReadsSeeOneImage | firmware/i2c_slave.c:84-103 | every register byte read comes from the image frozen at the pointer byte unless a publish began after the first bank flip since |
| I2cTheorems.FrozenIsPublished | firmware/i2c_slave.c:84-103 | and that image is a completely published one |
| I2cFate.PostFate | firmware/i2c_slave.c:170-218 | a posted capture is kept exactly if the worker is not between reading the count and clearing it, and doomed exactly if it is |
| I2cFate.KeptStep | firmware/i2c_slave.c:255-275 | each worker statement brings a kept capture one statement nearer to being printed as it was posted, and no interrupt changes that |
| I2cFate.PostedIsPrinted | firmware/i2c_slave.c:255-275 | over every run the print statement has a kept capture after exactly so many worker statements, at most 89 |
| I2cFate.PostedIsLost | firmware/i2c_slave.c:256-272 | over every run a doomed one is cleared unseen within nine worker statements, and nothing is printed before |
| I2cFate.LosingRun | firmware/i2c_slave.c:256-272 | a run from every start state that loses the capture of a one-byte write |
| I2cTally.RunsAreTallied | firmware/i2c_slave.c:164-204 | over every run the transaction counter is, modulo 2^32, the number of write transactions posted since it was cleared, and the error counter that of dropped bytes, dropped transactions and mistaken writes, less those overwritten |
| I2cTally.KeptIsActedOn | firmware/i2c_slave.c:263-271 | over every run a kept capture of byte 1 for register 0x40 clears both counters, one that is neither that nor in the loopback window is counted as an error, and the worker leaves the counters alone otherwise |
| I2cTally.MasterReadsCounters | firmware/i2c_slave.c:97-98 | a master reads at registers 10 to 17 the two counters as they were when its image was built |
| I2cTally.OverwritingRun | firmware/i2c_slave.c:268-271 | a run from every start state with two errors after which the counter says one |
| I2cLoopback.StepEcho | firmware/i2c_slave.c:105-225 | every interrupt and worker statement keeps the loopback window, except a stop that stores into it, and reads from the window return its contents, zero behind its end |
| I2cLoopback.StoreEcho | firmware/i2c_slave.c:181-187 | such a stop puts exactly the written bytes at their register |
| I2cLoopback.MasterReadsBack | firmware/i2c_slave.c:117-139 | over every run a master reads from the window the bytes it wrote there last, whatever the worker does between |
| I2cLoopback.ImageFields | firmware/i2c_slave.c:84-103 | the fields of a published image lie at their offsets and the rest is zero |
| I2cDriver.Driver.TransmitRequest | firmware/i2c_slave.c:117-147 | a transmit request yields the specified byte and state |
| I2cDriver.Driver.Stop | firmware/i2c_slave.c:170-224 | the stop handling with its copy loops computes the specified state |
| I2cDriver.Driver.InterruptHandler | firmware/i2c_slave.c:105-225 | the handler's statements compute the specified state from any state with indices in range |
| EdgeMatch.GreedyIsAllowed | analysis/data_1xhost_2xclient_0917/calculate_rf_latency.py:27-40 | each receive edge is paired at most once, inside the window of its sender, in order |
| EdgeMatch.GreedyIsMaximum | analysis/data_1xhost_2xclient_0917/calculate_rf_latency.py:27-40 | no pairing that uses each receive edge once inside its window has more pairs, for all sorted inputs |
| EdgeMatch.MatchReceives | analysis/data_1xhost_2xclient_0917/calculate_rf_latency.py:27-40 | the two-pointer loop computes that pairing, and stale, matched and left-over edges add up to all receive edges |
| EdgeMatch.LeftOverIsLater | analysis/data_1xhost_2xclient_0917/calculate_rf_latency.py:27-40 | of the edges that are not matched exactly those up to the last sender are stale and those behind it left over |
| EdgeMatch.LinearEqualsQuadratic | analysis/data_1xhost_2xclient_0916/calculate_rf_latency.py:64-70 | it equals the search of the first edge in each window exactly when that search never uses an edge twice |
| EdgeMatch.SpacedSendersAgree | analysis/data_1xhost_2xclient_0917/calculate_rf_latency.py:27-40 | in particular when senders are at least a window apart |
| EdgeMatch.CloseSendersDiffer | analysis/data_1xhost_2xclient_0916/calculate_rf_latency.py:64-70 | and not always otherwise |
| EdgeMatch.RisingEdges | analysis/data_1xhost_2xclient_0917/calculate_rf_latency.py:8-24 | what the glitch filter keeps is a subsequence of the samples, alternates, has no pulse or pause within the limit and ends on the true level; where no two changes are within the limit, or with the filter off, it keeps every change and finds the edges of the simple detector |
| EdgeMatch.GlitchVanishes | analysis/data_1xhost_2xclient_0917/calculate_rf_latency.py:16-23 | a glitch vanishes with its two samples and leaves everything else as it would be without them |
| Ticks.Unwrap | analysis/data_1xhost_1xclient_0915/rf_latency_logger.py:64-74 | the loop adds the number of recognised wraps times 2^32 |
| Ticks.StepExact | analysis/data_1xhost_1xclient_0915/rf_latency_logger.py:69-70 | a forward step is measured correctly exactly when it does not wrap or is shorter than 2^31 |
| Ticks.UnwrapExactly | analysis/data_1xhost_1xclient_0915/rf_latency_logger.py:64-74 | nondecreasing ticks with gaps below 2^32 are recovered up to one constant multiple of 2^32 if and only if every step that wraps is shorter than 2^31 |
| Ticks.UnwrapRecovers | analysis/data_1xhost_1xclient_0915/rf_latency_logger.py:64-74 | in particular with gaps below 2^31, over any number of wraps |
| Ticks.HalfRangeIsMissed | analysis/data_1xhost_1xclient_0915/rf_latency_logger.py:69-70 | the bound is sharp |
| Matcher.WaitingSplit | analysis/data_1xhost_1xclient_0915/rf_latency_logger.py:200-203 | the number of waiting entries is the sum over the payloads, in any order |
| Matcher.TxPairs | analysis/data_1xhost_1xclient_0915/rf_latency_logger.py:137-147 | a transmission keeps: the n-th match of a payload pairs its n-th transmission that has not expired with its n-th reception, and what is not matched waits, on one side only |
| Matcher.RxPairs | analysis/data_1xhost_1xclient_0915/rf_latency_logger.py:149-160 | so does a reception |
| Matcher.ExpiryPairs | analysis/data_1xhost_1xclient_0915/rf_latency_logger.py:188-198 | and so does an expiry |
| Matcher.Matcher.Tx | analysis/data_1xhost_1xclient_0915/rf_latency_logger.py:137-147 | the method does that to the queues, and every transmission is matched, lost or waiting |
| Matcher.Matcher.Rx | analysis/data_1xhost_1xclient_0915/rf_latency_logger.py:149-160 | the same for a reception, which is matched or waiting |
| Matcher.Matcher.Expire | analysis/data_1xhost_1xclient_0915/rf_latency_logger.py:188-198 | expiry removes the expired prefix of every queue, counts it as lost and conserves the totals |

## Left out

- LinkRetries.LossesSurvived: losses and premature time-outs are not mixed in one operation; LinkLag.LateAnswers covers the latter.
- I2cTheorems.WorkKeeps: the clearing of a bank with its identity bytes is one step.
- Framing.ReadProtocolFrame: a read that blocks for ever is the end of the byte stream.
- HostUpdater.Updater.Request: the clock is left out; each read of the port yields a frame or a time-out.
- I2cDriver.Driver.InterruptHandler: the worker's statements are modelled on values only, since they interleave with the handler one by one.
- connect and the application's text commands in the host tool, port discovery and banner detection.
- Start of the application in assembly, vector table and interrupt controller writes; handoff is one event.
- Interleaving of two boot API calls from different threads of the application.
- Radio set-up, receive queue and its statistics, command line text, CSV output, missing_runs, long_gaps and latency summaries.
- Board, pin, CCFG and SmartRF tables, Intel HEX tools, build scripts and the other host utilities.
- The formatted version string; only its range check is modelled.
