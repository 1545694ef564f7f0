# Verification of the gdix51c0 driver core

This project models the host side of the Goodix GDIX51C0 fingerprint driver and proves properties of the model for
all inputs, all runs and all interleavings. Where the driver changes fields, buffers or queues in place, the model is
a class or an array method proved against a transition function; what the driver promises is proved about those
functions, over whole runs. `dafny verify dfyconfig.toml` checks everything.

| file | subject |
|---|---|
| `Wire.dfy`, `SyncSpec.dfy`, `SyncCommand.dfy` | outer frames, chunked reads, command packets, and the commands sent before the listener exists |
| `Wb.dfy`, `PskState.dfy` | the key container, its reference form, and the key as text |
| `Records.dfy`, `TlsAdapter.dfy` | the packet patch, the record walk, the byte stream under OpenSSL, the two-attempt handshake |
| `SessionSpec.dfy`, `SessionKeys.dfy`, `SessionOutcomes.dfy`, `Session.dfy` | key selection, bounded key repair, the activation loop, runs of open, action, suspend and close, which key is written when, and when a session comes up |
| `SensorCache.dfy` | ImageBase, calibration and preprocessor bound to one sensor id |
| `Queues.dfy`, `ListenerSteps.dfy`, `ListenerRefinement.dfy`, `ListenerFreshness.dfy` | the 256 packet queues, the listener as atomic steps, every call of a sender as a run of those steps, and what drains and stop requests mean in every interleaving |
| `SenderSpec.dfy`, `SenderOutcomes.dfy`, `Listener.dfy` | a sending thread beside the reader: drain, submit, wait, resend, and one image capture, with the exact condition of every result |
| `FingerSpec.dfy`, `LiftGap.dfy`, `FingerOutcomes.dfy`, `Finger.dfy` | finger detection, lift confirmation, threshold tables, frame adoption, when a sample is certain to follow a lift, and when finger, lift and sample count |
| `Matching.dfy` | verification, identification and what is reported |
| `Image.dfy`, `Common.dfy` | unpacking and regrouping a frame; bytes, options and sequence facts |

The environment is a parameter everywhere: what the MCU queues, how the IRQ line moves, when a deadline has passed,
what OpenSSL, the matching engine and the file system answer, and which threads step next. Hash, HMAC and AES-GCM are
unknown functions of which only output sizes and the decrypt/encrypt inverse law are used (`Wb.Crypto.Lawful`).

Where code and documentation disagree, the code is modelled:

- A frame of declared length zero fails to be read: `g_malloc(0)` is a null pointer, so the listener's branch for
  empty packets cannot be reached through the real read, although the step model keeps it.
- A wrong header checksum is only logged.
- The command encoder accepts 65534 data bytes, but only 65530 survive the 16-bit frame length.
- Two characters of a key text may be a space or a sign and one digit, as the library conversion takes them.
- A repair under "random" writes a fresh key when no key is known, which happens if the first save failed; the comment
  speaks of the known key only. `SessionKeys.RandomRepairRotates` is the run, and
  `SessionKeys.KnownRandomKeyNeverRotates` shows that a key known at the start of a run never rotates.
- Only repair writes are bounded and need evidence. An ordinary write can be followed by another write within one open,
  ordinary or a repair, under the exact conditions of `SessionKeys.ExplicitKeyWrittenAgain` and
  `SessionKeys.RandomKeyWrittenAgain`.
- Both unwrap forms look at one of the four length bytes.
- Asking the listener to stop does not wake a sleeping waiter; it ends at its own deadline.
- The enrollment property "a zero touch between two samples" is false: the restart of a failed finger wait clears the
  lift-gap flag. `LiftGap.GuardedExactly` and `LiftGap.RestartGuardsExactly` give the exact condition,
  `LiftGap.RunMissesLift` the run that fails, and `FingerSpec.EveryRun` excuses only a boundary that cleared a set flag.
- A finger wait restarts the session only when the write of an arm fails with EPIPE or ECONNRESET, which
  become "connection closed". No listener wait returns that error, the two image messages cannot come from a finger
  wait, and nothing emits the text "FDT lost sync".

## Model

| member | source | states |
|---|---|---|
| `Wire.FrameRoundTrip` | drivers/gdix51c0/gdix51c0-proto.c:151-230 | A frame followed by any stream is read back exactly, with the stream left at the next header, if and only if its payload has 1 to 65534 bytes, whatever an idle bus clocks out. |
| `Wire.IdleHeadersSkipped` | drivers/gdix51c0/gdix51c0-proto.c:166-184 | Up to three all-zero or all-FF headers before a stream do not change what is read from it. |
| `Wire.BackToBack` | drivers/gdix51c0/gdix51c0-proto.c:74-230 | Any list of framed packets with idle headers between them is read back one by one, complete and in order. |
| `Wire.XferExactly` | drivers/gdix51c0/gdix51c0-proto.c:103-142 | For every descriptor and every pattern of failing transfers the chunked transfers yield exactly what the bus clocks out next, in the least number of transfers of at most 2048 bytes, if and only if none of them fails. |
| `Wire.ReadExactly` | drivers/gdix51c0/gdix51c0-proto.c:151-230 | For every descriptor a typed read is the frame read of the queued stream if no transfer of it fails, and a bus error otherwise; it writes nothing. |
| `Wire.IdleBusFails` | drivers/gdix51c0/gdix51c0-proto.c:166-205 | A bus with nothing queued fails after its header attempts, with the error that tells all zeros from all ones. |
| `Wire.UnreadableFrames` | drivers/gdix51c0/gdix51c0-proto.c:186-230 | A frame without payload fails in the allocation, and one of 65535 payload bytes by its length. |
| `Wire.HeaderExactly` | drivers/gdix51c0/gdix51c0-proto.c:54-100 | A header is the type, the little-endian length modulo 65536, and the sum of these three bytes. |
| `Wire.Port.XferRead` | drivers/gdix51c0/gdix51c0-proto.c:103-142 | The chunk loop computes those transfers in place: the buffer, the bytes left, and the transfers made, up to the first failed one. |
| `Wire.Port.SpiWrite` | drivers/gdix51c0/gdix51c0-proto.c:74-100 | Header and payload go out as two buffers that together are the frame; success exactly when both were written whole; after a header that was not, nothing more goes out. |
| `Wire.Port.SpiReadTyped` | drivers/gdix51c0/gdix51c0-proto.c:151-230 | The header retry loop and the payload read compute the typed read on the descriptor. |
| `Wire.CommandRoundTrip` | lib/goodix/common/goodix-wire.c:63-139 | Decoding undoes encoding for every command and data up to 65534 bytes, and a complete packet sums to 0xaa. |
| `Wire.DecodeExactly` | lib/goodix/common/goodix-wire.c:63-139 | The decoder accepts exactly the encoded commands, with whatever follows them, and returns what was encoded. |
| `Wire.CommandThroughFrame` | drivers/gdix51c0/gdix51c0-proto.c:54-100 | A command survives encoding, framing, reading and decoding if and only if it has at most 65530 data bytes, four fewer than the encoder accepts. |
| `SyncSpec.SubmitFollows` | drivers/gdix51c0/gdix51c0-proto.c:522-595 | For every kernel, MCU and line: a submit is a failed write and nothing more, or a write and an ACK packet, or a write, a miss and one resend, where a miss is a silent line, a failed read, a wrong first byte, or a line that does not fall where the caller waits for it; exactly the buffers of those writes go out, each whole write being the frame. |
| `SyncSpec.RequestFollows` | drivers/gdix51c0/gdix51c0-proto.c:679-911 | For every environment: a response is awaited exactly after an ACK, it counts exactly when it echoes the command byte and the line falls again, the command is repeated as a whole, once, exactly when its response is missing or wrong, and nothing but its frames goes out. |
| `SyncSpec.RequestOnBus` | drivers/gdix51c0/gdix51c0-proto.c:522-911 | So a command puts at most four packets on the wire, all of this command, and every one after the first directly follows a miss. |
| `SyncSpec.HeardExactly` | drivers/gdix51c0/gdix51c0-proto.c:555-595 | What is heard after a write is the frame at the head of the queued stream, or a bus error if a transfer failed. |
| `SyncSpec.MissExactly` | drivers/gdix51c0/gdix51c0-proto.c:522-595 | A whole write counts as missed exactly unless the line rises, a packet starting with the ACK byte is read, and the line falls where the caller waits for it. |
| `SyncSpec.AnswerExactly` | drivers/gdix51c0/gdix51c0-proto.c:679-751 | An attempt is answered exactly if it was acknowledged, its own command byte is heard, and the line falls again. |
| `SyncSpec.GoodExchange` | drivers/gdix51c0/gdix51c0-proto.c:522-911 | With an MCU that acknowledges and answers at once on a bus without faults, a command is written once and returns exactly the answer. |
| `SyncSpec.CommandBounded` | drivers/gdix51c0/gdix51c0-proto.c:522-911 | Every event list that follows the protocol of both retry levels has at most four writes, every one after the first directly after a miss. |
| `SyncCommand.Bus.SendAndAck` | drivers/gdix51c0/gdix51c0-proto.c:522-595 | The resend loop on the descriptor computes the submit: the writes made, the packets read, the stream left, and whether it was acknowledged. |
| `SyncCommand.Bus.RequestOnce` | drivers/gdix51c0/gdix51c0-proto.c:679-751 | Submit, ACK and response on the descriptor compute one attempt, and return the payload of the packet that answers it. |
| `SyncCommand.Bus.Request` | drivers/gdix51c0/gdix51c0-proto.c:814-911 | The two-level retry loop on the descriptor computes the command, and returns the payload of the answering packet, and nothing without one. |
| `Wb.UnwrapAcceptsExactly` | re/wb_wrap.py:51-74 | For lawful primitives unwrap returns a key exactly on the containers built for that key, for any upper length bytes. |
| `Wb.UnwrapOfWrap` | re/wb_wrap.py:37-74 | Unwrap undoes wrap for every 32-byte key. |
| `Wb.WrapOfUnwrap` | re/wb_wrap.py:51-74 | A container that unwraps equals the wrap of its key if and only if its three upper length bytes are zero. |
| `Wb.WrapInjective` | re/wb_wrap.py:37-48 | Two keys never share a container. |
| `Wb.BuildBindingInput` | drivers/gdix51c0/gdix51c0-wb.c:134-152 | The moving cursor lays out header, length, eight key bytes and sixteen pads. |
| `Wb.Wrap` | drivers/gdix51c0/gdix51c0-wb.c:124-181 | Writing the fields at their offsets, the front last, yields the concatenation form; it succeeds exactly when no library call fails, and a failure leaves the front untouched. |
| `Wb.Unwrap` | drivers/gdix51c0/gdix51c0-wb.c:237-306 | Reading the fields in place returns only what the reference unwrap returns, and exactly that when no library call fails. |
| `Wb.ProvisionData` | drivers/gdix51c0/gdix51c0-wb.c:309-337 | Register address, length, container and padding to four bytes. |
| `Wb.ProvisionedKey` | drivers/gdix51c0/gdix51c0-wb.c:309-337 | The register write names address 0xbb010003 and length 102, is padded to 112 bytes, and its container unwraps to the key that was provisioned. |
| `Image.UnpackLossless` | lib/goodix/common/goodix-image.c:36-40 | Groups that decode to equal samples are equal: decoding loses no bit. |
| `Image.Raw12Decode` | lib/goodix/common/goodix-image.c:20-44 | Decodes as many whole groups as both buffers hold and leaves the rest of the output alone. |
| `Image.TargetBijection` | drivers/gdix51c0/gdix51c0.c:2175-2182 | For every width and height the regroup index stays in the frame and is undone by the index with the sides exchanged. |
| `Image.Regroup` | drivers/gdix51c0/gdix51c0.c:2164-2183 | For every width and height the frame is the transpose of the stream and holds the same samples as a multiset. |
| `Image.DecodeFrame` | drivers/gdix51c0/gdix51c0.c:2164-2183 | A 7680-byte payload becomes the transposed 64 by 80 frame of its samples, none lost or repeated. |
| `Records.PatchSettles` | drivers/gdix51c0/gdix51c0-tls.c:70-91 | The inbound patch keeps the length, is idempotent, and changes a packet only if it starts with the empty cipher change or an altered key-exchange identity. |
| `Records.PatchInbound` | drivers/gdix51c0/gdix51c0-tls.c:70-91 | The in-place patch computes that repair. |
| `Records.ParseInverse` | drivers/gdix51c0/gdix51c0-tls.c:94-125 | The record parser loses nothing: records and remainder concatenate to the buffer. |
| `Records.ParseEncoded` | drivers/gdix51c0/gdix51c0-tls.c:94-125 | The parser reads back any concatenation of complete non-empty records (section 6.2.1 of RFC 5246). |
| `Records.WalkSeesRecords` | drivers/gdix51c0/gdix51c0-tls.c:94-125 | On every buffer the offset walk sets a flag exactly when the recursive parser finds such a record; a cipher change also counts in a malformed remainder. |
| `Records.WalkOfRecords` | drivers/gdix51c0/gdix51c0-tls.c:94-125 | On a concatenation of complete records the flags are those of the records themselves. |
| `Records.EmptyCcsNoticedAndRepaired` | drivers/gdix51c0/gdix51c0-tls.c:70-125 | The empty ChangeCipherSpec is noticed before the patch and is a well-formed record after it (section 7.1 of RFC 5246). |
| `TlsAdapter.StreamConserved` | drivers/gdix51c0/gdix51c0-tls.c:128-219 | For every packet sequence and every sequence of read sizes: bytes handed over plus bytes pending are exactly the patched packets, in order. |
| `TlsAdapter.DeliveredIsPrefix` | drivers/gdix51c0/gdix51c0-tls.c:128-219 | From a reset, what OpenSSL reads is a prefix of the concatenated patched packets. |
| `TlsAdapter.FlightNoted` | drivers/gdix51c0/gdix51c0-tls.c:94-125 | The three progress flags are all set exactly when the packets of this attempt held a hello, a key exchange and a cipher change. |
| `TlsAdapter.HandshakeOutcome` | drivers/gdix51c0/gdix51c0-tls.c:411-567 | Each outcome has its exact condition: established iff the first attempt is accepted, or it is refused, the session recreated and the second one accepted; mismatch iff both are refused, each with an authentication or record-layer reason after its own complete flight; unconfirmed iff both are refused without that; broken iff a trigger write or the recreation fails. |
| `TlsAdapter.Adapter.Fetch` | drivers/gdix51c0/gdix51c0-tls.c:136-199 | One packet per refill: of the first read, or of a second one after a failed first and a new IRQ. |
| `TlsAdapter.Adapter.BioRead` | drivers/gdix51c0/gdix51c0-tls.c:128-219 | One read on the buffer fields refines the stream step; -1 exactly when nothing could be fetched. |
| `TlsAdapter.Adapter.Load` | drivers/gdix51c0/gdix51c0-tls.c:204-219 | Progress is noted on the packet as it arrived, and the patched packet becomes the pending buffer. |
| `TlsAdapter.Adapter.NoteProgress` | drivers/gdix51c0/gdix51c0-tls.c:94-125 | The offset loop stays in bounds and computes the walk. |
| `TlsAdapter.Adapter.QueueShowsAuthentication` | drivers/gdix51c0/gdix51c0-tls.c:484-519 | Draining the error queue finds an authentication reason exactly when one is anywhere in it. |
| `TlsAdapter.Adapter.Recreate` | drivers/gdix51c0/gdix51c0-tls.c:370-408 | A second attempt starts with an empty buffer and cleared progress. |
| `TlsAdapter.Adapter.Handshake` | drivers/gdix51c0/gdix51c0-tls.c:411-567 | The two-attempt loop reports the outcome its attempts determine and leaves no pending bytes behind on success. |
| `PskState.ParseOfHex` | drivers/gdix51c0/gdix51c0.c:1172-1200 | Parsing undoes printing for every byte string. |
| `PskState.ParseIgnoresCase` | drivers/gdix51c0/gdix51c0.c:1172-1200 | The case of the digits does not matter, for every text. |
| `PskState.PairExactly` | drivers/gdix51c0/gdix51c0.c:1172-1200 | A pair is two digits, or one digit behind a space or a sign, a minus taking the value modulo 256; anything else is no key. |
| `PskState.LoadOfSave` | drivers/gdix51c0/gdix51c0.c:1214-1274 | What is loaded from the state file is the key that was saved. |
| `PskState.LoadIgnoresSpace` | drivers/gdix51c0/gdix51c0.c:1214-1274 | White space before and after the key text in the file does not matter. |
| `SessionSpec.WriteSettles` | drivers/gdix51c0/gdix51c0.c:1325-1434 | After a verified write the next start reuses that key or rewrites it, whether or not saving it succeeded. |
| `SessionSpec.TlsStartSound` | drivers/gdix51c0/gdix51c0.c:1304-1549 | One start keeps: repairs bounded and justified, every handshake on the last verified key. |
| `SessionSpec.ActivateLoopSound` | drivers/gdix51c0/gdix51c0.c:2017-2108 | The loop ends, calls activation no more often than the attempts left plus one unused extra budget, and grants that budget at most once. |
| `SessionSpec.ActivateSound` | drivers/gdix51c0/gdix51c0.c:2017-2114 | At most 2 * max(max_attempts, 1) activations and one extra budget per call. |
| `SessionSpec.RunSound` | drivers/gdix51c0/gdix51c0.c:485-635 | Every run of opens, actions, suspends and closes keeps the session invariant and its rest condition. |
| `SessionSpec.EveryRun` | drivers/gdix51c0/gdix51c0.c:1304-2156 | For all runs under constant settings: repairs are safe, no handshake follows a repair before the next activation and its hard reset, every handshake after a verified write uses that key, and TLS is ready exactly when a listener exists. |
| `SessionSpec.RepairNeedsTwoFlights` | drivers/gdix51c0/gdix51c0.c:1303-1515 | Every repair write of every run is the only repair since the last open and follows a handshake of that open whose two attempts each showed a complete client flight and an authentication or record-layer refusal. |
| `SessionKeys.StartWritesExactly` | drivers/gdix51c0/gdix51c0.c:1325-1434 | A start writes the sensor key, once, exactly when its key plan is a write; the write is a repair exactly when a repair is pending, and an ordinary one, which needs no evidence, otherwise. |
| `SessionKeys.StateFileAfter` | drivers/gdix51c0/gdix51c0.c:1394-1434 | The state file changes exactly when a planned write was verified and could be saved, and then holds that key. |
| `SessionKeys.PendingExactly` | drivers/gdix51c0/gdix51c0.c:1479-1500 | After any start a repair is pending exactly when one was pending and not written, or a known key of a requested provisioning was refused and no repair was attempted in this open. |
| `SessionKeys.ExplicitKeyWrittenAgain` | drivers/gdix51c0/gdix51c0.c:1325-1500 | After an ordinary write of an explicit key the next start writes it again if and only if an override hides the state file, the write was not verified, the key was not saved, or the key was refused with a confirmed mismatch and no repair was attempted yet; the next write is a repair exactly when the written key was verified and so refused. |
| `SessionKeys.RandomKeyWrittenAgain` | drivers/gdix51c0/gdix51c0.c:1346-1500 | After an ordinary write under "random" the next start, if the key was verified and saved, writes that key again exactly when it was refused, and as a repair; otherwise it writes a fresh key exactly when randomness is available, as a repair if the unsaved key was refused. |
| `SessionKeys.OrdinaryWritesRepeat` | drivers/gdix51c0/gdix51c0.c:1369-2108 | Ordinary writes do repeat within one open: a run that writes an explicit key in two starts, with no handshake before either. |
| `SessionKeys.WriteAfterFailedRepair` | drivers/gdix51c0/gdix51c0.c:1303-2108 | A failed repair does not end the writing: a run whose one repair fails and whose next start writes the same key again as an ordinary write. |
| `SessionKeys.RandomRepairRotates` | drivers/gdix51c0/gdix51c0.c:1346-1368 | Under "random" a pending repair with no known key is reachable, and it rotates the key: the run. |
| `SessionKeys.MismatchExists` | drivers/gdix51c0/gdix51c0-tls.c:411-567 | Two refused attempts with a complete flight each are a confirmed mismatch, so those runs exist. |
| `SessionKeys.KnownRandomKeyNeverRotates` | drivers/gdix51c0/gdix51c0.c:1346-2156 | Under "random" a key that is known when a run begins is the only key of the whole run: every write, repair or not, and every handshake uses it. |
| `SessionOutcomes.PlanExactly` | drivers/gdix51c0/gdix51c0.c:1341-1381 | A key is written exactly when the settings want another one on the sensor or a repair of the known one, and kept exactly when none is asked for or the known one is the one asked for and no repair is due. |
| `SessionOutcomes.StartExactly` | drivers/gdix51c0/gdix51c0.c:1304-1549 | For every state, settings and environment: a start is ready if and only if it has a key to connect with (one just written and verified outside a repair, the known one, or the one read from the sensor), the context is made, the handshake is established, and the acknowledgement arrives; session flag, repair flags and events are exact, and a verified repair asks for a reset. |
| `SessionOutcomes.OnceExactly` | drivers/gdix51c0/gdix51c0.c:1968-2014 | An activation succeeds if and only if the MCU answers, initialisation works, the start is ready, the listener starts and the first calibration works; listener, session and events are exact. |
| `SessionOutcomes.TurnExactly` | drivers/gdix51c0/gdix51c0.c:2036-2100 | A failed turn is followed by another if and only if the action is not cancelled and it completed the first repair of the open with the extra budget still ungranted, or budget is left; only the former starts the count again, and exactly a cancellation marks a desync. |
| `SessionOutcomes.ActivateExactly` | drivers/gdix51c0/gdix51c0.c:2017-2114 | An activation loop succeeds if and only if it reaches a turn that comes up; a ready session is reused instead. |
| `SessionOutcomes.TriesAll` | drivers/gdix51c0/gdix51c0.c:2017-2114 | Against an MCU that never answers, uncancelled, the loop makes exactly as many attempts as it may. |
| `SessionOutcomes.RestartsLast` | drivers/gdix51c0/gdix51c0.c:3656-3705 | The restarts of an action go on exactly as long as each of them activates. |
| `SessionOutcomes.ActionExactly` | drivers/gdix51c0/gdix51c0.c:3649-4253 | A session outlives its action if and only if activation and restarts all worked, the action is of a kind that keeps it, it ended cleanly, and no desync was marked; every other action ends without one. |
| `SessionOutcomes.ReadyWasAccepted` | drivers/gdix51c0/gdix51c0.c:421-4253 | For every run: while a session is ready, OpenSSL accepted the client in an attempt of the last handshake. |
| `SessionOutcomes.SessionComesUp` | drivers/gdix51c0/gdix51c0.c:421-4253 | A run that ends with listener and session up: a saved key, an accepting client, an open and one verification. |
| `Session.Device.PlanWrite` | drivers/gdix51c0/gdix51c0.c:1341-1381 | Decides whether to keep, write or abort, as the key plan says. |
| `Session.Device.WriteKey` | drivers/gdix51c0/gdix51c0.c:1383-1434 | Consumes a pending repair before the destructive write; saves only a verified key. |
| `Session.Device.Connect` | drivers/gdix51c0/gdix51c0.c:1479-1548 | Handshake with the chosen key; only a confirmed mismatch of a known key schedules a repair, once per open. |
| `Session.Device.TlsStart` | drivers/gdix51c0/gdix51c0.c:1304-1549 | Key selection, optional rewrite and handshake compute the transition of one start. |
| `Session.Device.ActivateOnce` | drivers/gdix51c0/gdix51c0.c:1968-2014 | One activation from a state without a listener; the listener is still absent where the code asserts it. |
| `Session.Device.RunTurn` | drivers/gdix51c0/gdix51c0.c:2036-2100 | One loop turn with its reset, cancellation checks and budget decision. |
| `Session.Device.ActivateWithAttempts` | drivers/gdix51c0/gdix51c0.c:2017-2108 | The loop with the measure (budget not yet granted, attempts left) computes the activation, and is entered without a listener. |
| `Session.Device.Deactivate` | drivers/gdix51c0/gdix51c0.c:2117-2156 | Ends listener, TLS session and desync mark. |
| `Session.Device.Action` | drivers/gdix51c0/gdix51c0.c:3649-4253 | Activation, capture restarts and the final keep-or-reset of one action, from rest to rest. |
| `Session.Device.Operate` | drivers/gdix51c0/gdix51c0.c:421-635 | One open, warm open, action, suspend or close on the object is one transition of a run. |
| `Session.Device.Run` | drivers/gdix51c0/gdix51c0.c:421-4253 | A whole run on the object is the run of the transitions, so what holds of every run holds of the object. |
| `SensorCache.LoadOfBaseFile` | drivers/gdix51c0/gdix51c0.c:1781-1965 | A saved ImageBase loads back for its own sensor id and is rejected for every other. |
| `SensorCache.LoadBaseExactly` | drivers/gdix51c0/gdix51c0.c:1781-1845 | Exactly the files of 10272 bytes with the magic "GDX0", version 2 and this sensor id are loaded. |
| `SensorCache.LoadCalibrationExactly` | drivers/gdix51c0/gdix51c0.c:1848-1902 | A calibration file is loaded exactly if it has its size, names this sensor, and the engine accepts its payload. |
| `SensorCache.LoadOfCalibrationFile` | drivers/gdix51c0/gdix51c0.c:1848-1902 | A saved calibration loads back for its own sensor while the engine accepts it, and is refused otherwise. |
| `SensorCache.CloseIsUndone` | drivers/gdix51c0/gdix51c0.c:606-1965 | What a close drops the next read of the same sensor restores exactly, if the adopted calibration could be saved. |
| `SensorCache.HandleFinds` | drivers/gdix51c0/gdix51c0.c:1763-1965 | A new handle finds the adopted frame on the same sensor, and nothing of it on another. |
| `SensorCache.Cache.BaselineLoad` | drivers/gdix51c0/gdix51c0.c:1781-1845 | Loads only a file of the right size, magic, version and sensor id, and otherwise changes nothing. |
| `SensorCache.Cache.CalibrationMaybeLoadOrGenerate` | drivers/gdix51c0/gdix51c0.c:1848-1902 | Loads the calibration of this sensor; generates and saves one exactly when no file exists and a base is known; never replaces an invalid file. |
| `SensorCache.Cache.PreprocessorMaybeInit` | drivers/gdix51c0/gdix51c0.c:1905-1925 | Builds the preprocessor from exactly the present calibration and ImageBase, if the engine accepts them. |
| `SensorCache.Cache.DropForeign` | drivers/gdix51c0/gdix51c0.c:961-972 | A changed sensor id drops base, calibration and preprocessor. |
| `SensorCache.Cache.ReadSensor` | drivers/gdix51c0/gdix51c0.c:961-1019 | After every id read whatever is present belongs to that id; what the same sensor already had is kept, and what is missing is loaded, generated or built, with the exact new state of cache and files. |
| `SensorCache.Cache.Rebase` | drivers/gdix51c0/gdix51c0.c:1712-1750 | The calibration and its file follow a new base, or stay as they were if the engine refuses. |
| `SensorCache.Cache.AdoptBase` | drivers/gdix51c0/gdix51c0.c:1669-1756 | The adopted frame becomes base and file content, a present calibration follows it, a missing one is loaded or generated, and the preprocessor is rebuilt from exactly the result. |
| `SensorCache.Cache.Close` | drivers/gdix51c0/gdix51c0.c:606-635 | Closing drops preprocessor and calibration, and the base stays bound to its sensor. |
| `SensorCache.Cache.Run` | drivers/gdix51c0/gdix51c0.c:485-1965 | Every run of opens, id reads, adoptions, closes and outside changes of the files is the run of the transitions, and coherence holds after it. |
| `SensorCache.Cache.SaveThenLoad` | drivers/gdix51c0/gdix51c0.c:1763-1965 | What one handle adopts, a later handle on the same sensor loads, and a handle on another sensor does not. |
| `Queues.EnqueueValid` | drivers/gdix51c0/gdix51c0-listener.c:121-142 | Enqueueing, with its drop of the oldest packet at sixteen, keeps every queue bounded and every packet accounted for. |
| `Queues.EnqueueExactly` | drivers/gdix51c0/gdix51c0-listener.c:121-142 | Only a queue of sixteen drops, its oldest packet; the new packet is queued last and no other queue changes. |
| `Queues.PopValid` | drivers/gdix51c0/gdix51c0-listener.c:625-643 | Taking the head keeps the accounting. |
| `Queues.DrainFromValid` | drivers/gdix51c0/gdix51c0-listener.c:394-410 | Draining all queues keeps the accounting and forgets no arrival. |
| `Queues.Conservation` | drivers/gdix51c0/gdix51c0-listener.c:121-142 | For every kind: arrivals = delivered + dropped + drained + queued; packets leave in order of arrival, none twice; a queue holds at most sixteen packets of its own kind in order. |
| `ListenerSteps.StepKeepsQueues` | drivers/gdix51c0/gdix51c0-listener.c:239-242 | Every atomic step keeps the accounting and leaves no waiter asleep beside a packet. |
| `ListenerSteps.StepKeepsBus` | drivers/gdix51c0/gdix51c0-listener.c:167-173 | Every atomic step keeps the bus trace a sequence of whole transactions, owned by whoever holds the lock. |
| `ListenerSteps.EveryInterleaving` | drivers/gdix51c0/gdix51c0-listener.c:148-665 | For every interleaving of reader, senders, waiters, drains and flags: conservation and order per kind, no lost wakeup, contiguous writes and reads, and at most one further listener read begun while suppression holds. |
| `ListenerSteps.OneReadAfterSuppress` | drivers/gdix51c0/gdix51c0-listener.c:157-165 | That one read does happen: a run in which the reader had passed the check before the flag was set. |
| `ListenerSteps.BusNeedsHighLine` | drivers/gdix51c0/gdix51c0-listener.c:148-242 | In every interleaving the reader goes for the bus only after it has seen the line high. |
| `ListenerRefinement.FailedReadReturns` | drivers/gdix51c0/gdix51c0-listener.c:148-242 | A read that fails costs only itself: from there the reader comes back to the top of its loop with nothing queued or lost. |
| `ListenerRefinement.AwaitIsARun` | drivers/gdix51c0/gdix51c0-listener.c:611-665 | From any state with a free bus and this waiter ready, every wait, with any arrivals, stop and timeout, is an interleaving of the atomic steps that ends in the same queues and gives this waiter the same answer. |
| `ListenerRefinement.WaitAfterAnyRun` | drivers/gdix51c0/gdix51c0-listener.c:611-665 | Any interleaving that leaves a caller free is continued by the whole waiting call to an interleaving from the initial state, with the same queues, stop flag and returned packet, so all that holds of every interleaving holds of it. |
| `ListenerRefinement.SendAckAfterAnyRun` | drivers/gdix51c0/gdix51c0-listener.c:468-535 | The same for an acknowledged submit with drain, resend and waits: as many writing transactions on the bus, each whole or ended by its failed header, and the same packets answered in the same order. |
| `ListenerRefinement.CommandAfterAnyRun` | drivers/gdix51c0/gdix51c0-listener.c:538-608 | The same for a command with both retry levels, also when a stop is requested during its submit. |
| `ListenerRefinement.CaptureAfterAnyRun` | drivers/gdix51c0/gdix51c0.c:3357-3534 | The same for an image capture with its silent readout. |
| `ListenerFreshness.TakenIsFresh` | drivers/gdix51c0/gdix51c0-listener.c:394-427 | In every interleaving a packet that any thread takes is newer than every earlier drain of its kind, whoever drained and whatever happened in between. |
| `ListenerFreshness.CallIsFresh` | drivers/gdix51c0/gdix51c0-listener.c:468-608 | In every interleaving in which one thread drains a kind, later waits for it and is handed a packet, that packet is of this kind and arrived after the drain; so an ACK or response is newer than its drain whatever else the call and the other threads do in between. |
| `ListenerFreshness.OnePacketAfterStop` | drivers/gdix51c0/gdix51c0-listener.c:148-242 | In every interleaving at most one packet arrives after a stop request. |
| `SenderSpec.AwaitFresh` | drivers/gdix51c0/gdix51c0-listener.c:611-665 | Waiting on any kind keeps a drained queue free of older packets, and returns a packet of the kind asked for. |
| `SenderSpec.AwaitLeavesNothing` | drivers/gdix51c0/gdix51c0-listener.c:620-660 | A wait ends empty-handed only beside an empty queue: closed only if stopped, timed out only if not; a packet it returns is the latest delivery. |
| `SenderSpec.SendAckFresh` | drivers/gdix51c0/gdix51c0-listener.c:468-535 | An accepted ACK arrived after this call drained the ACK queue; at most two writes, each resend directly after an ACK timeout. |
| `SenderSpec.CommandFresh` | drivers/gdix51c0/gdix51c0-listener.c:538-608 | A returned response arrived after the drain of the attempt that returned it; at most four writes, and only timeouts resend. |
| `SenderSpec.CaptureWell` | drivers/gdix51c0/gdix51c0.c:3357-3534 | One image capture writes at most four times and decrypts at most once, never writes after it has received a record, and returns exactly the packed frame inside a well-framed record that arrived after its own drain. |
| `SenderOutcomes.AwaitExactly` | drivers/gdix51c0/gdix51c0-listener.c:611-665 | Every wait ends at its first look that finds a packet, a stop request or the deadline, and with the first of these that applies there. |
| `SenderOutcomes.SubmitExactly` | drivers/gdix51c0/gdix51c0-listener.c:468-535 | A submit is written twice if and only if its first ACK timed out, and every result (acknowledged with this packet, write failed, no ACK, closed) has its exact condition on the two writes and waits. |
| `SenderOutcomes.CommandExactly` | drivers/gdix51c0/gdix51c0-listener.c:538-608 | A command is repeated as a whole if and only if it was acknowledged and its response timed out; it returns a response if and only if that attempt got it, and every other result is exact. |
| `SenderOutcomes.OpenedExactly` | drivers/gdix51c0/gdix51c0.c:3438-3512 | A record is decrypted if and only if it is framed as application data, and each judgement (bad record, failed decryption, short image, this frame) has its exact condition on the record and its plaintext. |
| `SenderOutcomes.CaptureExactly` | drivers/gdix51c0/gdix51c0.c:3357-3534 | A capture returns an image if and only if the record of its first attempt yields it, or that record timed out and the one of its second attempt does. |
| `SenderOutcomes.CaptureEndsExactly` | drivers/gdix51c0/gdix51c0.c:3357-3534 | A capture is repeated if and only if it was acknowledged and its record timed out, with exactly the writes of its submits; every other attempt ends it with the judgement of its record or what kept the record away. |
| `SenderOutcomes.GoodCommand` | drivers/gdix51c0/gdix51c0-listener.c:538-608 | With an MCU that acknowledges and answers at once, one write returns exactly the response. |
| `SenderOutcomes.GoodCapture` | drivers/gdix51c0/gdix51c0.c:3357-3534 | With an ACK and a record that decrypts to a whole frame, one write, one suppressed readout and one decryption return exactly the frame after the eight prefix bytes. |
| `Listener.ImageCommandEncodes` | drivers/gdix51c0/gdix51c0.c:3317-3327 | The hand-built image request is the encoding of its command and two data bytes. |
| `Listener.PacketListener.EnqueueLocked` | drivers/gdix51c0/gdix51c0-listener.c:121-142 | The in-place enqueue refines the queue transition. |
| `Listener.PacketListener.DrainCmd` | drivers/gdix51c0/gdix51c0-listener.c:413-427 | The drain loop empties one queue and accounts for each packet. |
| `Listener.PacketListener.DrainAll` | drivers/gdix51c0/gdix51c0-listener.c:394-410 | The same over all 256 queues. |
| `Listener.PacketListener.Await` | drivers/gdix51c0/gdix51c0-listener.c:611-665 | The wait loop takes a queued packet before it looks at the stop flag or the deadline, and computes the waiting transition for any arrivals. |
| `Listener.PacketListener.SendAck` | drivers/gdix51c0/gdix51c0-listener.c:468-535 | Drain, submit, wait and resend compute the acknowledged submit. |
| `Listener.PacketListener.Command` | drivers/gdix51c0/gdix51c0-listener.c:538-608 | The two-level retry loop computes the command transition. |
| `Listener.PacketListener.OpenRecord` | drivers/gdix51c0/gdix51c0.c:3438-3512 | Length, framing and type are checked before the one decryption, the plaintext length after it. |
| `Listener.PacketListener.CaptureRecord` | drivers/gdix51c0/gdix51c0.c:3357-3541 | The capture loop computes the capture transition and always leaves the reader unsuppressed. |
| `Listener.PacketListener.CaptureImage` | drivers/gdix51c0/gdix51c0.c:3309-3541 | A captured frame is the transpose of the unpacked record content; a failed capture leaves the buffer alone. |
| `FingerSpec.WaitSound` | drivers/gdix51c0/gdix51c0.c:2950-3101 | A finger wait that succeeds has settled every owed lift. |
| `FingerSpec.LiftTurnsSound` | drivers/gdix51c0/gdix51c0.c:3105-3222 | Every lift wait keeps the invariant of the run, so a dark frame is adopted only right after a zero touch, and a lift that is confirmed leaves none owed. |
| `FingerSpec.LiftReportSound` | drivers/gdix51c0/gdix51c0.c:3779-3807 | A lift that may be deferred is either observed or remembered. |
| `FingerSpec.PrimeSound` | drivers/gdix51c0/gdix51c0.c:1561-1641 | Priming adopts its frame only if the reading just before it was finger-off. |
| `FingerSpec.RestartSound` | drivers/gdix51c0/gdix51c0.c:1644-1666 | Every restart keeps the invariant, and one after a failed image finds no lift owed. |
| `FingerSpec.EveryRun` | drivers/gdix51c0/gdix51c0.c:2243-3991 | For all runs: the baseline is the latest zero-touch sample since the cold boundary, every FDT-down arm with a baseline sends half of it clamped to 1..255 per zone, an ImageBase is adopted only from a frame taken right after a finger-off reading, and between two samples of one action a zero touch was read unless the restart of a failed finger wait cleared a set lift-gap flag between them. |
| `LiftGap.WaitsForZeroExactly` | drivers/gdix51c0/gdix51c0.c:2950-3101 | From every state, with or without a baseline and for every profile, a finger wait is certain to read a zero touch before it accepts a finger if and only if the lift-gap flag is set (or the profile asks for more zones than there are). |
| `LiftGap.GuardedExactly` | drivers/gdix51c0/gdix51c0.c:2950-3101 | From every state the next sample is certain to come after the lift of the last one if and only if that lift was seen or the flag is set (or no finger can satisfy the profile). |
| `LiftGap.RestartGuardsExactly` | drivers/gdix51c0/gdix51c0.c:3656-3676 | After the restart of a failed finger wait that comes up again the next sample is still certain of that if and only if no lift was unseen before it or a reading that the restart makes is a zero touch, priming being skipped once a frame was adopted unless it is forced (or no finger can satisfy the profile): what the flag remembered is lost. |
| `LiftGap.LiftIsZeroTouch` | drivers/gdix51c0/gdix51c0.c:3105-3222 | A lift is confirmed only by a zero touch that was read in that lift wait. |
| `LiftGap.LiftReportGuards` | drivers/gdix51c0/gdix51c0.c:3779-3807 | After a lift that counts, observed or deferred, the next sample is guarded. |
| `LiftGap.RunMissesLift` | drivers/gdix51c0/gdix51c0.c:3649-3991 | The run that misses a lift, from the initial state and for every profile a finger can satisfy: open, then one enrollment of two stages; an EPIPE in the arm of the second wait restarts the session, the boundary clears the set flag, and the two samples stand with no zero touch between them. |
| `FingerOutcomes.ThresholdsExactly` | drivers/gdix51c0/gdix51c0.c:2476-2489 | Every zone gets the fixed low byte and half of its reading plus the offset, kept within 1..255. |
| `FingerOutcomes.WaitTurnExactly` | drivers/gdix51c0/gdix51c0.c:2984-3098 | One turn of a finger wait: it ends with a finger if and only if a complete packet in time shows enough touched zones and no lift is owed; it goes on exactly after silence or a re-arm that works, and fails by its cause. |
| `FingerOutcomes.WaitExactly` | drivers/gdix51c0/gdix51c0.c:2950-3101 | A finger wait arms after measuring a missing base, and succeeds if and only if the arm works and a press comes within its turns. |
| `FingerOutcomes.LiftTurnExactly` | drivers/gdix51c0/gdix51c0.c:3105-3222 | One turn of a lift wait confirms the lift if and only if its armed answer, or after silence a manual reading, is a zero touch, and goes on exactly while the finger is still there. |
| `FingerOutcomes.LiftArmExactly` | drivers/gdix51c0/gdix51c0.c:2447-2507 | A lift turn arms with half of the touched sample plus 29 in every zone. |
| `FingerOutcomes.LiftReportExactly` | drivers/gdix51c0/gdix51c0.c:3779-3807 | A lift counts if and only if it was confirmed, or timed out where it may be deferred; exactly the latter sets the flag. |
| `FingerOutcomes.CaptureExactly` | drivers/gdix51c0/gdix51c0.c:3649-3732 | A capture counts, and logs exactly one sample, if and only if finger and image of its first try both work, or the first try lost the session, it came up again, and both work in the second. |
| `FingerOutcomes.EnrollExactly` | drivers/gdix51c0/gdix51c0.c:3825-3991 | The samples of an enrollment are exactly the successful captures of its stages up to the first that is complete, fatal, not captured or not lifted. |
| `FingerOutcomes.EnrollStops` | drivers/gdix51c0/gdix51c0.c:3825-3991 | No stage after such a one has any effect. |
| `FingerOutcomes.RetriesExactly` | drivers/gdix51c0/gdix51c0.c:3740-3776 | Further images of a press are taken exactly as long as a manual reading counts enough zones and the image works. |
| `FingerOutcomes.MatchImagesExactly` | drivers/gdix51c0/gdix51c0.c:3994-4253 | A match action without a capture does nothing more; with one it takes its further images and waits for the lift if asked. |
| `FingerOutcomes.SamplesExactly` | drivers/gdix51c0/gdix51c0.c:3649-4253 | For every operation from every state the samples logged are exactly its successful captures. |
| `FingerOutcomes.PrimeAdoptsExactly` | drivers/gdix51c0/gdix51c0.c:1561-1641 | Priming adopts its frame if and only if none was adopted in this open and the readings before and after it are finger-off. |
| `FingerOutcomes.RestartExactly` | drivers/gdix51c0/gdix51c0.c:1644-1666 | Every session boundary with an activation resets flag, desync mark and register table. |
| `Finger.TouchCount` | drivers/gdix51c0/gdix51c0.c:276-284 | The shifting loop counts the touched zones. |
| `Finger.FillThresholds` | drivers/gdix51c0/gdix51c0.c:2476-2489 | The loop writes, for every zone, the fixed low byte and half of its reading plus the offset, clamped to 1..255. |
| `Finger.Detector.UpdateDownThresholds` | drivers/gdix51c0/gdix51c0.c:2243-2257 | The loop rewrites the whole register table from the baseline, and leaves it alone without one. |
| `Finger.Detector.FdtDownRead` | drivers/gdix51c0/gdix51c0.c:2320-2397 | Parses a finger-down packet: short ones are ignored, a full one replaces the sample, a zero-touch one also the baseline. |
| `Finger.Detector.ParseFdtUp` | drivers/gdix51c0/gdix51c0.c:2400-2444 | Parses a lift packet into baseline or finger-down sample. |
| `Finger.Detector.FdtUpArm` | drivers/gdix51c0/gdix51c0.c:2447-2507 | Arms the lift with half of the touched sample plus 29, and only with a sample. |
| `Finger.Detector.FdtMeasureBase` | drivers/gdix51c0/gdix51c0.c:2594-2620 | A manual reading feeds baseline or sample and says whether the finger is off. |
| `Finger.Detector.WaitForFinger` | drivers/gdix51c0/gdix51c0.c:2950-3101 | Base measurement, arm, and wait loop with re-arms compute the finger wait. |
| `Finger.Detector.WaitForLift` | drivers/gdix51c0/gdix51c0.c:3105-3222 | The lift loop, with its manual probe after silence, computes the lift wait. |
| `Finger.Detector.WaitForLiftReport` | drivers/gdix51c0/gdix51c0.c:3779-3807 | Sets or clears the lift-gap flag as the lift wait ended. |
| `Finger.Detector.PrimeT0` | drivers/gdix51c0/gdix51c0.c:1561-1641 | The calibration pass computes the priming transition. |
| `Finger.Detector.CaptureOneRaw` | drivers/gdix51c0/gdix51c0.c:3649-3732 | Two tries with at most one restart compute one capture. |
| `Finger.Detector.EnrollSync` | drivers/gdix51c0/gdix51c0.c:3825-3991 | The enrollment loop over captures and lifts computes the enrollment run. |
| `Finger.Detector.RetryCaptures` | drivers/gdix51c0/gdix51c0.c:3740-3776 | Retry images are taken only while a manual reading counts enough zones. |
| `Finger.Detector.Run` | drivers/gdix51c0/gdix51c0.c:3825-4253 | One operation of a run on the object is one transition of the run. |
| `Matching.ScanFindsBest` | drivers/gdix51c0/gdix51c0.c:4115-4138 | The gallery scan yields exactly the earliest entry with the greatest positive score together with its own result; it finds nobody exactly when no score is positive, and aborts exactly when an entry fails. |
| `Matching.BestIsUnique` | drivers/gdix51c0/gdix51c0.c:4115-4138 | Whatever is best in that sense is what the scan returns. |
| `Matching.MatchIsBest` | drivers/gdix51c0/gdix51c0.c:4029-4157 | A match is the best entry of the first attempt that has one, and the result passed on is that entry's own. |
| `Matching.MatchExactly` | drivers/gdix51c0/gdix51c0.c:4029-4157 | And conversely: the action matches an entry if and only if some attempt is the first with a match and this is its best entry. |
| `Matching.ErrorExactly` | drivers/gdix51c0/gdix51c0.c:4029-4157 | The action fails with an error of a kind if and only if some attempt is the first with one, in its capture, its preparation or its first failing entry, before any match or lift. |
| `Matching.EndedExactly` | drivers/gdix51c0/gdix51c0.c:4029-4163 | It ends undecided if and only if the finger is gone or no attempt is left before any match or error. |
| `Matching.RetryExactlyWhenRejected` | drivers/gdix51c0/gdix51c0.c:4061-4075 | The user is asked to try again exactly when every capture was rejected, the last one for a named reason, and no probe was ever compared. |
| `Matching.ShownExactly` | drivers/gdix51c0/gdix51c0.c:4164-4253 | What the frontend sees is exact: entry i is reported, and studied with result r, if and only if some attempt is the first with a match, i is its best entry and r its result; a non-match if and only if a transient error or an undecided end without a retry; a retry if and only if always rejected; a failed completion if and only if another error came first; each at most once and in order. |
| `Matching.EveryActionShows` | drivers/gdix51c0/gdix51c0.c:3994-4284 | For every run of actions one more action adds exactly these events; an identify after an enrollment adds one held non-match. |
| `Matching.OneReportPerSuccess` | drivers/gdix51c0/gdix51c0.c:2800-2931 | For every run of actions each verify or identify completes exactly once, with one report if it completes without error and none otherwise, the report directly before its completion. |
| `Matching.Matcher.IdentifyBest` | drivers/gdix51c0/gdix51c0.c:4115-4138 | The best-score loop computes the scan. |
| `Matching.Matcher.MatchComplete` | drivers/gdix51c0/gdix51c0.c:2813-2861 | Reports only what is still unreported and without error, holds a non-match, and completes once. |
| `Matching.Matcher.Captures` | drivers/gdix51c0/gdix51c0.c:4029-4163 | The capture loop decides as the verdict says and reports a non-match itself exactly when the last attempt was compared in vain. |
| `Matching.Matcher.VerifyOrIdentify` | drivers/gdix51c0/gdix51c0.c:3994-4253 | The action shows exactly the events of its verdict; a transient failure becomes a reported non-match without error. |
| `Matching.Matcher.IdentifySync` | drivers/gdix51c0/gdix51c0.c:4263-4284 | The identify after an enrollment is answered with a non-match, once. |

## Left out

- SensorCache.Cache.AdoptBase: states the case of a known sensor id, because frames are adopted only inside a session, after the id was read.
- Finger.Detector.CaptureOneRaw: a suspend that strikes in the middle of a wait is not a step; a suspend appears as the cold boundary between operations and as the cancellation it causes.
- ListenerRefinement.WaitAfterAnyRun: the call starts with the bus free, the reader at the top of its loop and no stop requested; what other senders do during the call is covered by the step model only.
- ListenerRefinement.SendAckAfterAnyRun: the same start.
- ListenerRefinement.CommandAfterAnyRun: the same start; where a stop is requested during a submit, at most one packet arrives before the response is looked for, which `ListenerFreshness.OnePacketAfterStop` shows of every interleaving. A packet that arrives between the two drains of a command is not part of the transition function; `ListenerFreshness.CallIsFresh` covers it.
- ListenerRefinement.CaptureAfterAnyRun: as for the command; the decryption is no step of the listener.
- The single-response command without an ACK, which checks no command byte, and the level-triggered waits.
- The register sequence of a bring-up, OTP parsing beyond the sensor id, and the retry of version queries.
- Reading back a key from the MCU and verifying a register write: both are arbitrary outcomes of a start.
- Real time: a deadline is passed or not when the code looks; delays and timeouts have no length.
- Lazy allocation of the queues; an unallocated queue and an empty one behave alike.
- Freeing of the listener while another thread waits; the driver frees it from the sending thread.
- OpenSSL, the SPI ioctls, the GPIO library, the main loop and the udev and fprintd glue, beyond their outcomes.
- The matching engine: probe preparation, scoring, study, enrollment policy and calibration contents are arbitrary outcomes; only the calibration file's size, owner and acceptance are modelled.
- Everything compiled only for developer builds: fault injection, frame dumps and tuning variables.
- Log messages, error texts and object boilerplate.
