# Kermit engine, firmware updates and download resume

A verified model of the file-moving code of the developer kit: the embedded
Kermit engine with its codec, packets, negotiation, attributes and stop-and-wait
protocol, and the loops that check and write firmware images and resume HTTP
downloads.

## What is modelled

| file | component |
|---|---|
| `Bytes.dfy` | characters, the macros `tochar`, `xunchar`, `ctl`, C strings |
| `Codec.dfy` | what a data field means and what `encode` writes, as mathematics |
| `FileIo.dfy`, `Encoder.dfy` | `readfile`, `zgetc`, `encode`, `getpkt`, `encstr` on the mutable buffers |
| `Decoder.dfy` | `decode` and the output buffer |
| `BlockCheck.dfy`, `CrcDivision.dfy` | the three block checks, the two CRC tables, and the polynomial division they stand for |
| `KnownForms.dfy` | well-known bytes of the protocol, on which other programs rely |
| `Packet.dfy`, `Framing.dfy` | `spkt`, the parser of K_RUN, `readpkt` |
| `Negotiation.dfy`, `Attributes.dfy` | `rpar`, `spar`, `sattr`, `gattr` and the number conversions |
| `Engine.dfy` | one call of K_RUN as a function of control structure and packet |
| `Transfer.dfy` | a sender and a receiver on two lines that lose packets; safety over all runs |
| `Refusals.dfy` | what is answered to packets that take nothing forward, how often, and how transfers break off |
| `Completion.dfy` | runs on perfect lines: when they end well |
| `Impasse.dfy` | the steps the two programs can really take, and the states they cannot leave |
| `Recovery.dfy` | which disturbed transfers can still be completed, exactly |
| `Names.dfy` | what becomes of file names that come back over a line with parity |
| `TypeTwo.dfy` | which packets check type 2 accepts, and lists of files it makes impossible |
| `Wire.dfy` | the packets of a run as bytes on the lines |
| `Kermit.dfy` | the control structure as an object; K_INIT, K_SEND and K_RUN refine the engine |
| `Slots.dfy` | receive slots and the driver loop |
| `MurataCrc.dfy` | the modem checksum, its table and its two drivers |
| `ModemUpload.dfy` | the block loop of the modem update |
| `GeckoFlash.dfy` | the page loop of the Gecko update |
| `HttpResume.dfy` | the download callback and the retry loop |

How the pieces fit: `Encoder.GetPkt` promises conservation of the bytes of a
file; `Engine.LegalFill` is that promise as the engine sees it, so the theorems of
`Transfer` hold for every way of cutting a file into packets; `Kermit.Run` proves
that the object does what the engine says, with a field that meets the promise;
`Wire.DeliveriesAreFit` shows that the object may always be called in a run, and
`Wire.CurrentPacketArrives` that the packets survive being printed and parsed.

The safety theorems of `Transfer` let any packet under way be accepted or refused,
in any slot, so they hold for more than the programs can do. An accepted packet is
handed over as its reader sees it (`Engine.SeenBy`): with parity in use, without
eighth bits. The theorems about completion allow only what the programs can do: the
driver reads into the first free slot, and a packet is accepted only if its block
check is, over what its reader sees (`Impasse.Feasible`).

The configuration is the compiled one: long packets, attributes, CRC and the
sliding-window capability bit are on, true sliding windows are off. In the transfers
either end may do without attributes, as another Kermit program would.

## Where the code differs from what it, or its comments, promise

- A type-2 check is compared with an unmasked 16-bit sum, so only packets with a sum below 4096 are accepted (`kermit.c:381-382`, `kermit.c:825-831`, where the comment says 12 bits). Even on perfect lines a transfer with such a packet, or such an acknowledgement, never ends well (`TypeTwo.LongNameCannotBeSent`).
- The acknowledgement of an F packet carries the name as it is (`kermit.c:635`), with nothing prefixed. On a line with parity the sender reads it without its eighth bits (`zephyrio.c:159-177`), so its check fails, or, where it does not notice, an altered name is accepted and ignored. `Names.EvenNamesCanBeSent` says exactly which names can be sent with check type 1, `Names.PairedNameCannotBeSent` names a family that cannot with type 3; in general it is a matter of the check over the stripped name (`Recovery.CompletionIsPossible`).
- A peer whose parameter string ends before the capability field is sent longer packets than it asked for (`kermit.c:1083-1095`).
- A length announced in kilobytes is never used, because the length in bytes starts at 0 and not below it (`kermit.c:1339-1343`).
- A receiver that sends a NAK after its acknowledgement was lost, because it read something overlong, empty or damaged, answers all further repetitions with that NAK; the transfer cannot be completed any more (`kermit.c:461-468`, `kermit.c:976-985`).
- A file that the receiver stops is closed by a Z packet without a D, so the receiver keeps the part it has as if it were the whole file (`kermit.c:488-503`, `Refusals.StoppedFileIsKept`).
- A receiver that reads packets with a good header and a bad check counts them but never gives up because of them (`Refusals.PatienceWithNoise`), and a sender never gives up because of what it cannot read (`Refusals.SenderInsists`).
- Reads of one to three bytes and ACKs that stop a file keep their receive slot; after four of them the driver has none left.
- The last flash page of the Gecko image is padded with old data, not with zeros as the comment says (`dfu_gecko_lib.c:404`), since the buffer is not cleared between the two reads of the last turn; `GeckoFlash.PaddingIsZeros` says exactly when zeros come out.
- An empty file name leaves the field buffer of the sender unterminated, so the F packet would carry the text of an earlier field (`kermit.c:1450-1453`, `kermit.c:541-542`). `Encoder.EncStr` says so; in the transfers names are not empty.
- The length in the header of a long packet is not compared with the limit of the receiver (`zephyrio.c:155-169`): up to 9030 bytes go into a slot of 2008.
- Six leftover characters and their NUL do not fit `s_remain` (`kermit.h:352`); `SendCodec.SixLeftExactly` says exactly when that happens, which takes check type 1 or 2 (`SendCodec.NeverSixWithTypeThree`), and `SendCodec.SixCanBeLeft` gives inputs.
- A Gecko image of exactly 2048 bytes is accepted and the loop then never ends.
- A modem image that is a multiple of 1024 bytes is reported as sent although its last 1024 bytes never go out: an empty block announces the end and another empty block follows; an image of at most 1024 bytes is never ended, and of one of exactly 1024 bytes nothing is sent (`ModemUpload.LongImage`, `ModemUpload.ShortImage`). For one of 2^32 - 1024 bytes or more the loop never ends (`ModemUpload.LargestNeverEnd`).
- After a resumed download the status of the first request is returned if it was negative, even when everything has been received (`tmo_http_request.c:470`, `tmo_http_request.c:531-550`).

## Model

| member | source | states |
|---|---|---|
| `Transfer.ReceivedIsPrefix` | samples/tmo_shell/src/ek18/src/kermit.c:449-741 | End-to-end safety: for every file list, every parity and block check type at the two ends and whether or not either offers attributes, in every state of every run over lossy FIFO lines with noise at either end, the receiver holds whole files of the list, in order, with their names and, if both offer them, their attributes, and then an exact prefix of the next one |
| `Transfer.SuccessIsComplete` | samples/tmo_shell/src/ek18/src/kermit.c:604-649 | When either side reports X_DONE every file of the list has been received whole, and the sender never reports it before the receiver |
| `Transfer.NeverUnexpected` | samples/tmo_shell/src/ek18/src/kermit.c:519-741 | Lockstep: the packet types the sender issues are legal in the state the receiver is in, in every run; neither end reaches an "Unexpected packet type" branch, and no field that is accepted stops inside a prefix group |
| `Transfer.ClosedFileIsWhole` | samples/tmo_shell/src/ek18/src/kermit.c:681-732 | Whenever the list of received files changes it grows by exactly one, the next file of the sender, with all of its bytes |
| `Transfer.AlwaysInvariant` | samples/tmo_shell/src/ek18/src/kermit.c:256-741 | The invariant behind these (sequence numbers of the two ends equal or one apart mod 64, what may be on each line and in which order, what would be repeated, how far file and state have got) holds in every state of every run |
| `Transfer.StepKeepsInvariant` | samples/tmo_shell/src/ek18/src/kermit.c:256-741 | Every single step keeps that invariant: a loss, a delivery of any packet under way, a short or damaged read at either end |
| `Transfer.ForwardDelivered` | samples/tmo_shell/src/ek18/src/kermit.c:446-480 | A packet from the sender, current, old, repeated or an E packet, keeps the invariant, whatever slot it is read into |
| `Transfer.BackwardDelivered` | samples/tmo_shell/src/ek18/src/kermit.c:482-506 | So does an answer, whichever data field getpkt then chooses to cut |
| `Transfer.NoiseIsHarmless` | samples/tmo_shell/src/ek18/src/kermit.c:261-271 | A short read or a failed check only makes an end repeat itself, ask again or give up; it never moves it forward |
| `Transfer.StrayIsHarmless` | samples/tmo_shell/src/ek18/src/kermit.c:446-480 | The same for an intact packet with a number that is not the one wanted, and for an E packet |
| `Transfer.AcceptOpening` | samples/tmo_shell/src/ek18/src/kermit.c:608-622 | Taking the S packet leaves both ends in step: negotiated parameters, acknowledgement with the parameters the sender will adopt |
| `Transfer.AcceptName` | samples/tmo_shell/src/ek18/src/kermit.c:624-638 | Taking the F packet: the receiver holds the name the sender encoded |
| `Transfer.AcceptAttributes` | samples/tmo_shell/src/ek18/src/kermit.c:650-660 | Taking the A packet: the receiver holds type, length and date of the file |
| `Transfer.AcceptData` | samples/tmo_shell/src/ek18/src/kermit.c:661-713 | Taking a D packet: bytes received, and bytes still pending at the sender, make up the file |
| `Transfer.AcceptEnd` | samples/tmo_shell/src/ek18/src/kermit.c:681-732 | Taking the Z packet: the file is closed whole, and the list of complete files is one longer |
| `Transfer.AcceptBreak` | samples/tmo_shell/src/ek18/src/kermit.c:639-641 | Taking the B packet: the receiver is done, with all files |
| `Transfer.ProceedOpening` | samples/tmo_shell/src/ek18/src/kermit.c:520-554 | After the acknowledgement of S both ends have agreed, and the first F packet, or B for an empty list, is legal at the receiver |
| `Transfer.ProceedEnd` | samples/tmo_shell/src/ek18/src/kermit.c:520-554 | After the acknowledgement of Z the next file or B follows, all files before it being complete |
| `Transfer.ProceedName` | samples/tmo_shell/src/ek18/src/kermit.c:556-578 | After the acknowledgement of F the attributes of the very same file follow if both ends offer them, and otherwise its first D packet, with decoded field plus rest equal to the file, or Z exactly if the file is empty |
| `Transfer.ProceedAttributes` | samples/tmo_shell/src/ek18/src/kermit.c:580-602 | From the attributes to the first D packet, or straight to Z for an empty file |
| `Transfer.ProceedData` | samples/tmo_shell/src/ek18/src/kermit.c:580-602 | From one D packet to the next or to Z, with nothing lost or repeated between them |
| `Recovery.CompletionIsPossible` | samples/tmo_shell/src/ek18/src/kermit.c:446-480 | The exact condition for recovery: in every state of every run, and for every way getpkt may cut the files, there is a way on to success if and only if neither end has given up or run out of receive slots, the current packet can be accepted and acknowledged (or its acceptable acknowledgement is under way, or would be repeated with retries left in the slot the driver uses), and the checks of all packets still to be issued, and of their acknowledgements as the sender sees them, will be accepted; with check types 1 and 3, and no eighth bits in the names where one end has parity, the last part is always true |
| `Recovery.RestIsExchangeable` | samples/tmo_shell/src/ek18/src/kermit.c:446-480 | With check types 1 and 3 only names can be in the way: if every name that may arrive comes back in an acceptable acknowledgement, the checks of all packets to come are accepted |
| `Recovery.LossThenNakIsFatal` | samples/tmo_shell/src/ek18/src/kermit.c:976-985 | One lost acknowledgement and one NAK of the receiver (after an overlong, empty or damaged read), at any point of any transfer, make completion impossible, because the NAK takes the place of the acknowledgement in the one packet kept |
| `Recovery.LostStaysLost` | samples/tmo_shell/src/ek18/src/kermit.c:446-480 | No step the programs and lines can take, fault or delivery, leads from a state that cannot be completed to one that can |
| `Impasse.BlockedStays` | samples/tmo_shell/src/ek18/src/kermit.c:256-510 | The same for what blocks a transfer at once: an end that has given up or has no slot, an acknowledgement out of reach, a packet or acknowledgement whose check is refused |
| `Impasse.ReadableIsRead` | samples/tmo_shell/src/ek18/src/kermit.c:326-445 | Accepting and refusing, as these theorems allow them, are what readpkt and the parser do with the bytes: in every reachable state the current packet as printed is read as exactly the packet a delivery hands over if its check is acceptable, and refused for its check if not |
| `Impasse.ReadableAnswerIsRead` | samples/tmo_shell/src/ek18/src/kermit.c:326-445 | The same for the acknowledgement the receiver keeps, of which the sender sees what its parity leaves: eighth bits are gone, and the check is computed without them |
| `TypeTwo.FitsByLength` | samples/tmo_shell/src/ek18/src/kermit.c:380-402 | With check type 2 every packet with at most 14 characters of data that the line does not alter is accepted, and none with 128 to 250 printable ones |
| `TypeTwo.LongNameCannotBeSent` | samples/tmo_shell/src/ek18/src/kermit.c:380-402 | With check type 2 a list in which any file has a name of 43 to 250 lower-case letters can never be sent, however getpkt encodes the name: from the start there is no way on, whatever the lines do |
| `Names.NameMustComeBack` | samples/tmo_shell/src/ek18/src/kermit.c:624-638 | The acknowledgement of an F packet repeats the name undecorated; if that packet is not accepted, for one name of at most 664 bytes and every sequence number, the list can never be sent, for every way getpkt may cut it |
| `Names.EvenNamesCanBeSent` | samples/tmo_shell/src/ek18/src/zephyrio.c:159-177 | With parity at either end and check type 1, and names of at most 664 bytes without the byte 128, a list can be sent if and only if every name has an even number of characters with an eighth bit, which the sender strips from the acknowledgement before it computes the check |
| `Names.FoldedSumMissesPairs` | samples/tmo_shell/src/ek18/src/kermit.c:814-831 | Check type 1 passes over stripped text if and only if an even number of eighth bits is missing |
| `Names.PairedNameCannotBeSent` | samples/tmo_shell/src/ek18/src/zephyrio.c:159-177 | With parity at either end and check type 3 a list with a name whose eighth bits, one or two, are in neighbouring characters can never be sent, because the CRC notices the change |
| `Names.NameIsToCome` | samples/tmo_shell/src/ek18/src/kermit.c:519-554 | Among the packets the sender has still to issue is the F packet of every file to come |
| `Names.SimpleIsLegal` | samples/tmo_shell/src/ek18/src/kermit.c:1424-1547 | There is a legal way of cutting for every file list |
| `Recovery.QuietCanFinish` | samples/tmo_shell/src/ek18/src/kermit.c:1613-1621 | With both lines empty, a repetition by the sender and, if need be, one by the receiver out of the slot the driver reads into bring the two ends back to taking turns, and these end in success |
| `Completion.FaultFreeRunCompletes` | samples/tmo_shell/src/ek18/src/kermit.c:256-741 | When a transfer completes on perfect lines, for every file list and every cutting: a run in which every packet is accepted has at most 2 * (packets) + 2 steps, can be continued until the sender is done, and then both sides are done and hold the same files; a run in which one packet is refused never completes; so a run that is over has completed if and only if nothing was refused, and only check type 2 can refuse, or parity together with a name that has eighth bits |
| `Completion.TurnIsPossible` | samples/tmo_shell/src/ek18/src/kermit.c:446-606 | While such a run is not over exactly one packet is under way and the driver has a slot for it; it is accepted if and only if its check, as printed, is acceptable over what the reader sees of its data |
| `Completion.UnreadableBlocks` | samples/tmo_shell/src/ek18/src/kermit.c:380-402 | A packet in turn, or its acknowledgement, that is refused blocks the transfer; a packet of the sender is refused with check type 2 only, an acknowledgement also where parity takes eighth bits from a name |
| `Completion.EchoCrosses` | samples/tmo_shell/src/ek18/src/kermit.c:624-638 | No acknowledgement loses anything to parity if the names have no eighth bits |
| `Completion.ProceedingComesCloser` | samples/tmo_shell/src/ek18/src/kermit.c:519-603 | Every acknowledgement brings the sender strictly closer to its end, since a non-empty field always takes something off the file |
| `Completion.FieldExists` | samples/tmo_shell/src/ek18/src/kermit.c:1424-1547 | The field contracts can always be met: for every pending text and every file name there is a legal field of at most 1996 characters |
| `Wire.CurrentPacketArrives` | samples/tmo_shell/src/ek18/src/kermit.c:281-445 | In every reachable state, the packet the sender waits to have acknowledged, printed with the sender's parameters, is found by readpkt and taken apart by K_RUN with the receiver's parameters into the same packet, behind any noise and with any old bytes in the slot, or refused for its check; refused with check type 2 only, if and only if the byte sum is not below 4096 |
| `Wire.AnswerArrives` | samples/tmo_shell/src/ek18/src/kermit.c:281-445 | The same for the acknowledgement the receiver keeps, read by the sender in its state (check type 1 in S_INIT): it is taken apart into what the sender's parity leaves of it if the check passes over that, and refused if not |
| `Wire.DeliveriesAreFit` | samples/tmo_shell/src/ek18/src/kermit.c:256-501 | In every run every packet read meets what the C code takes for granted (no NUL in the data, no field cut inside a prefix group, negotiated lengths that leave room), so the precondition of Kermit.Run holds whenever it is called |
| `Wire.AlwaysFine` | samples/tmo_shell/src/ek18/src/kermit.c:864-972 | Every packet ever put on a line, or kept for repetition, has a number below 64, a printable type and data without NUL, and fits the packet buffer |
| `Transfer.CurrentCrosses` | samples/tmo_shell/src/ek18/src/kermit.c:519-603 | No packet the sender waits to have acknowledged is altered by parity: where one end has it, none of the data has an eighth bit |
| `Wire.EndsMatch` | samples/tmo_shell/src/ek18/src/kermit.c:326-342 | Whenever a packet matters, its writer and its reader use the same block check type and terminator, and the reader knows about eighth-bit prefixing if its line has parity |
| `Attributes.AttributesCross` | samples/tmo_shell/src/ek18/src/kermit.c:1352-1419 | The attribute string of a file crosses every line as it is unless the date has eighth bits, and fits a packet |
| `KermitObject.Kermit.Run` | samples/tmo_shell/src/ek18/src/kermit.c:256-741 | One call of kermit() with K_RUN on the mutable control structure: the new abstract state, the packets sent and the return code are those of the protocol step proved safe above, for a data field that getpkt has really cut from the file |
| `KermitObject.Kermit.constructor` | samples/tmo_shell/src/ek18/src/kermit.c:117-221 | K_INIT leaves the idle receiver with which every run starts |
| `KermitObject.Kermit.StartSending` | samples/tmo_shell/src/ek18/src/kermit.c:224-231 | K_SEND: an S packet with number 0 and the announcement, state S_INIT |
| `KermitObject.Kermit.GetRslot` | samples/tmo_shell/src/ek18/src/kermit.c:747-768 | Finds the first free slot and marks it allocated without touching retry counts, or reports that none is free |
| `KermitObject.Kermit.RightNumber` | samples/tmo_shell/src/ek18/src/kermit.c:456-506 | A packet with the wanted number clears the retry count, and each of the four ways on (receive, not an ACK, stop request, proceed) does what the protocol step says |
| `KermitObject.Kermit.WrongNumber` | samples/tmo_shell/src/ek18/src/kermit.c:449-480 | The previous packet again is answered by a repetition until the retries run out; any other number is refused |
| `KermitObject.Kermit.RepeatOrGiveUp` | samples/tmo_shell/src/ek18/src/kermit.c:461-468 | The retry is counted in the slot, and past the limit an E packet goes out in place of the repetition |
| `KermitObject.Kermit.TakePacket` | samples/tmo_shell/src/ek18/src/kermit.c:608-737 | The receiver frees the slot except when it gives up in the middle of a file |
| `KermitObject.Kermit.TakeAnswer` | samples/tmo_shell/src/ek18/src/kermit.c:482-506 | The sender repeats itself on anything but an ACK, stops the file if asked to, and goes on otherwise |
| `KermitObject.Kermit.BetweenFiles` | samples/tmo_shell/src/ek18/src/kermit.c:520-554 | The next step after the ACK of S or Z, with a legal field for the name |
| `KermitObject.Kermit.WithinFile` | samples/tmo_shell/src/ek18/src/kermit.c:556-602 | The next step after the ACK of F, A or D, with a legal data field |
| `KermitObject.Kermit.AfterName` | samples/tmo_shell/src/ek18/src/kermit.c:556-578 | Attributes if the other side wants them, data if not |
| `KermitObject.Kermit.Receive` | samples/tmo_shell/src/ek18/src/kermit.c:608-737 | The receiver's protocol switch on a packet with the wanted number |
| `KermitObject.Kermit.Proceed` | samples/tmo_shell/src/ek18/src/kermit.c:519-606 | The sender's protocol switch on the acknowledgement it waits for |
| `KermitObject.Kermit.Opening` | samples/tmo_shell/src/ek18/src/kermit.c:520-554 | Adopting the other side's parameters changes nothing about what is pending, and the first file is opened and named |
| `KermitObject.Kermit.NextFile` | samples/tmo_shell/src/ek18/src/kermit.c:531-554 | The next file of the list is opened and its name encoded into a field that decodes to it, or B is sent |
| `KermitObject.Kermit.SData` | samples/tmo_shell/src/ek18/src/kermit.c:1510-1524 | The next data field, or Z exactly when nothing is pending |
| `KermitObject.Kermit.SendAttributes` | samples/tmo_shell/src/ek18/src/kermit.c:556-563 | The A packet describes the file being sent |
| `KermitObject.Kermit.Cancel` | samples/tmo_shell/src/ek18/src/kermit.c:488-503 | On an ACK that says X or Z: a Z packet, for Z also the end of the file list, and the slot keeps its packet |
| `KermitObject.Kermit.SkipList` | samples/tmo_shell/src/ek18/src/kermit.c:493-499 | The file list pointer ends at the end of the list |
| `KermitObject.Kermit.TakeParameters` | samples/tmo_shell/src/ek18/src/kermit.c:608-622 | S: the announcement is adopted and answered with an announcement |
| `KermitObject.Kermit.TakeName` | samples/tmo_shell/src/ek18/src/kermit.c:624-638 | F: the decoded name is kept and echoed in the acknowledgement |
| `KermitObject.Kermit.TakeAttributes` | samples/tmo_shell/src/ek18/src/kermit.c:650-660 | A: the attributes are read and accepted with Y |
| `KermitObject.Kermit.TakeData` | samples/tmo_shell/src/ek18/src/kermit.c:661-713 | D: what has been delivered grows by exactly what the field stands for |
| `KermitObject.Kermit.TakeEnd` | samples/tmo_shell/src/ek18/src/kermit.c:681-732 | Z: the buffer is flushed and the file closed with all delivered bytes, or dropped if the sender says D |
| `KermitObject.Kermit.Nak` | samples/tmo_shell/src/ek18/src/kermit.c:977-983 | A NAK for the wanted number; failure once the slot's retries exceed the limit |
| `KermitObject.Kermit.Resend` | samples/tmo_shell/src/ek18/src/kermit.c:1613-1621 | The last packet sent goes out again, unchanged |
| `KermitObject.Kermit.Ack` | samples/tmo_shell/src/ek18/src/kermit.c:988-1001 | An acknowledgement goes out and the wanted number advances mod 64 |
| `KermitObject.Kermit.EPkt` | samples/tmo_shell/src/ek18/src/kermit.c:1529-1534 | An E packet with number 0; the block check type is 1 from then on |
| `KermitObject.Kermit.Issue` | samples/tmo_shell/src/ek18/src/kermit.c:1606-1610 | Next number mod 64, packet sent, and its acknowledgement is what is waited for |
| `Refusals.NakRepairsLoss` | samples/tmo_shell/src/ek18/src/kermit.c:976-985 | What a NAK is for: when the packet the receiver waits for is lost and it reads noise, its NAK makes the sender repeat the packet, and the repetition is taken |
| `Refusals.PatienceWithNoise` | samples/tmo_shell/src/ek18/src/kermit.c:976-985 | Each read of noise is answered by a NAK for the same packet and counted in its slot; a receiver reports failure on exactly the reads after retry + 1 of them that are short or have a bad header, and never on a bad check behind a good header |
| `Refusals.PatienceWithRepetition` | samples/tmo_shell/src/ek18/src/kermit.c:461-468 | A packet accepted before is answered by the kept packet retry + 1 times, and the next time by an E packet and the end |
| `Refusals.SenderInsists` | samples/tmo_shell/src/ek18/src/kermit.c:482-486 | A sender that reads noise, or anything but the ACK it waits for, repeats its packet, without limit |
| `Refusals.PreviousIsAnsweredAgain` | samples/tmo_shell/src/ek18/src/kermit.c:461-468 | The previous packet again is answered again and counted, or past the limit by an E packet with the check type back at 1 |
| `Refusals.StrangerIsRefused` | samples/tmo_shell/src/ek18/src/kermit.c:469-480 | Any other number is answered by a NAK for the packet wanted, or by repeating the current one, and nothing else changes |
| `Refusals.EchoIsIgnored` | samples/tmo_shell/src/ek18/src/kermit.c:287-295 | A receiver that hears a NAK or an ACK does nothing |
| `Refusals.ErrorEnds` | samples/tmo_shell/src/ek18/src/kermit.c:446-447 | An E packet ends the transfer at either end, with nothing sent |
| `Refusals.OnlyExpectedTypes` | samples/tmo_shell/src/ek18/src/kermit.c:608-737 | A receiver ends with "Unexpected packet type", an E packet and everything received left as it is, if and only if the type is not one of those its state expects |
| `Refusals.IncompleteFileIsDropped` | samples/tmo_shell/src/ek18/src/kermit.c:681-724 | At a Z packet the file is logged unless the packet says D |
| `Refusals.StoppedFileIsKept` | samples/tmo_shell/src/ek18/src/kermit.c:488-503 | A file the receiver stops with X or Z ends with a Z packet that does not say it is incomplete, so the receiver keeps what it has as a complete file, short of exactly what was pending |
| `Refusals.AfterTheStop` | samples/tmo_shell/src/ek18/src/kermit.c:531-554 | After a stop the next file follows, or B when the group was stopped |
| `Slots.SlotIsFreed` | samples/tmo_shell/src/ek18/src/kermit.c:256-510 | A call that succeeds leaves its slot free if and only if it is neither a read of one to three bytes nor an ACK by which the receiver stops the file; no other slot changes |
| `Slots.SlotsAreConserved` | samples/tmo_shell/src/ek18/src/kermit_cmd.c:494-543 | Over whole runs of the driver loop free slots plus leaked slots stay constant, so the loop runs out of slots only after exactly as many leaking calls as there were free slots, and never without one |
| `Slots.FirstFreeExists` | samples/tmo_shell/src/ek18/src/kermit.c:755-766 | getrslot finds a slot if and only if one is free |
| `Engine.ReceiveKeepsSlots` | samples/tmo_shell/src/ek18/src/kermit.c:608-737 | The receiver's protocol switch does not touch any slot |
| `Engine.PacketisedRoundTrip` | samples/tmo_shell/src/ek18/src/kermit.c:1424-1506 | Packetised round trip: the fields of any chain of legal cuts, each decoded on its own and concatenated, are the whole input, and there are no more of them than bytes |
| `SendCodec.Encoder.AllFields` | samples/tmo_shell/src/ek18/src/kermit.c:580-602 | The round trip for the encoder itself: calling getpkt until it returns nothing yields fields of at most s_maxlen-4 characters that, each decoded on its own and concatenated, are everything that was pending |
| `SendCodec.Encoder.GetPkt` | samples/tmo_shell/src/ek18/src/kermit.c:1424-1506 | Conservation: what the returned field decodes to, followed by what is still pending (leftovers, lookahead byte, unread input), is what was pending before; empty exactly when nothing was; at most s_maxlen-4 characters; not cut short when everything fits. At most 6 leftover characters, 5 with check type 3, 4 without eighth-bit prefixing, always those of one run, and field and leftovers exactly determined by what was pending |
| `SendCodec.Encoder.EncStr` | samples/tmo_shell/src/ek18/src/kermit.c:1537-1546 | A name goes into one field that decodes to a prefix of it, the whole if it is sure to fit, and the encoder is rewound for the file with nothing of the file consumed; an empty name leaves the field buffer as it was |
| `SendCodec.Encoder.Fill` | samples/tmo_shell/src/ek18/src/kermit.c:1471-1505 | The loop keeps decoded field plus pending equal to the goal at every turn and stops within the limits |
| `SendCodec.Encoder.Begin` | samples/tmo_shell/src/ek18/src/kermit.c:1433-1470 | The opening of getpkt: first byte, leftovers, and the two early returns |
| `SendCodec.Encoder.CutOff` | samples/tmo_shell/src/ek18/src/kermit.c:1492-1502 | Cutting off the last run leaves a shorter good field and pending leftovers that decode to exactly what was cut |
| `SendCodec.Encoder.Advance` | samples/tmo_shell/src/ek18/src/kermit.c:1472-1490 | One turn: input shrinks, the field grows by at most one run, and that run can be cut off again |
| `SendCodec.Encoder.Encode` | samples/tmo_shell/src/ek18/src/kermit.c:1557-1603 | encode either counts one more equal byte, or writes the run of s_rpt+1 bytes and records where it may be cut |
| `SendCodec.Encoder.EncodeOne` | samples/tmo_shell/src/ek18/src/kermit.c:1583-1602 | One byte with its eighth-bit and control prefixes |
| `SendCodec.Encoder.TakeLeftover` | samples/tmo_shell/src/ek18/src/kermit.c:1463-1467 | The leftovers move to the front of the field and are gone from s_remain |
| `SendCodec.Encoder.SaveLeftover` | samples/tmo_shell/src/ek18/src/kermit.c:1492-1500 | The end of the field moves to s_remain, NUL-terminated |
| `SendCodec.Encoder.AnyCode` | samples/tmo_shell/src/ek18/src/kermit.c:1433-1470 | At the start of a file a change of the prefix characters changes nothing about what is pending |
| `KnownForms.EncodedForms` | samples/tmo_shell/src/ek18/src/kermit.c:1557-1603 | Control characters, eighth bits, prefixes and runs are written as the protocol has it: byte 1 as #A, byte 129 as &#A, five NULs as ~%#@ |
| `KnownForms.DecodedForms` | samples/tmo_shell/src/ek18/src/kermit.c:1189-1239 | and read as such, a count of zero as one |
| `KnownForms.KnownSums` | samples/tmo_shell/src/ek18/src/kermit.c:816-831 | The digits 1 to 9 have sum 477 and folded check 32 |
| `KnownForms.KnownAcknowledgement` | samples/tmo_shell/src/ek18/src/kermit.c:864-972 | The acknowledgement of packet 1 is #!Y? between mark and carriage return |
| `KnownForms.KnownLongHeader` | samples/tmo_shell/src/ek18/src/kermit.c:881-901 | The extended header of packet 2 with 95 characters of data, byte by byte |
| `KnownForms.KnownAnnouncement` | samples/tmo_shell/src/ek18/src/kermit.c:1115-1173 | The announcement of this program, byte by byte |
| `KnownForms.KnownAttributes` | samples/tmo_shell/src/ek18/src/kermit.c:1352-1419 | The attribute string of a binary file of five bytes, byte by byte |
| `Codec.RunRoundTrip` | samples/tmo_shell/src/ek18/src/kermit.c:1188-1239 | For every byte and every run length 1..94, decode gives back exactly that many copies from what encode writes, for any sound choice of prefix characters |
| `Codec.CharRoundTrip` | samples/tmo_shell/src/ek18/src/kermit.c:1583-1602 | A single byte, prefixed as needed, decodes to itself, and is never mistaken for a repeat prefix |
| `Codec.DecodeAppend` | samples/tmo_shell/src/ek18/src/kermit.c:1201-1235 | Fields that each end at a group boundary decode one after the other like their concatenation |
| `Codec.RunIsClear` | samples/tmo_shell/src/ek18/src/kermit.c:1556-1603 | Channel transparency: every character encode writes, counts included, has its low seven bits in 32..126, and no eighth bit when eighth bits are prefixed; a run takes at most 6 characters, 4 without eighth-bit prefixing |
| `Codec.RunSize` | samples/tmo_shell/src/ek18/src/kermit.c:1556-1603 | A run of n bytes takes at least one and at most 3n characters |
| `Codec.RunOfSix` | samples/tmo_shell/src/ek18/src/kermit.c:1566-1598 | A run takes six characters if and only if it is of exactly two bytes, with eighth-bit prefixing on, the eighth bit set and a control prefix needed |
| `SendCodec.FieldIsFull` | samples/tmo_shell/src/ek18/src/kermit.c:1471-1505 | A field is cut off only when at most five more characters would have fitted |
| `SendCodec.SixLeftExactly` | samples/tmo_shell/src/ek18/src/kermit.c:1471-1505 | Six characters, one more than s_remain holds with its NUL, are left over if and only if the field overflows by such a pair of bytes and the first of the two would end past s_maxlen - 4 as well |
| `SendCodec.NeverSixWithTypeThree` | samples/tmo_shell/src/ek18/src/kermit.c:1471-1505 | With check type 3 the field is full early enough for the first byte of the pair, so six are never left over |
| `SendCodec.SixCanBeLeft` | samples/tmo_shell/src/ek18/src/kermit.c:1471-1505 | With check types 1 and 2 they can be: for every packet length, with the prefixes the two ends agree on where there is parity, the input of letters and then two bytes 128 leaves six |
| `Codec.CutAtRun` | samples/tmo_shell/src/ek18/src/kermit.c:1483-1502 | Cutting a field before its last run, or between the two characters of a run of two, leaves two fields that decode separately to the same bytes |
| `RecvCodec.Decoder.DecodeData` | samples/tmo_shell/src/ek18/src/kermit.c:1189-1239 | Bytes handed to writef plus bytes in the output buffer grow by exactly what the field stands for, whatever the size of the buffer |
| `RecvCodec.Decoder.DecodeName` | samples/tmo_shell/src/ek18/src/kermit.c:1189-1239 | The file name is what the field stands for |
| `RecvCodec.Decoder.TakeGroup` | samples/tmo_shell/src/ek18/src/kermit.c:1201-1216 | One group is taken off the input: count, byte and rest are those of the specification |
| `RecvCodec.Decoder.PutRun` | samples/tmo_shell/src/ek18/src/kermit.c:1218-1233 | A run goes to the buffer, which is dumped each time it is full |
| `RecvCodec.Decoder.Flush` | samples/tmo_shell/src/ek18/src/kermit.c:714-719 | After the flush everything delivered has been written and sofar equals its length |
| `FileIo.FileSource.ZGetc` | samples/tmo_shell/src/ek18/src/kermit.c:55-56 | Successive calls yield the bytes of the file and then -1, for every way the file system cuts its reads |
| `FileIo.FileSource.ReadFile` | samples/tmo_shell/src/ek18/src/zephyrio.c:387-420 | A refill takes the next piece of the file and returns its first byte, -1 exactly at the end |
| `BlockCheck.BurstIsDetected` | samples/tmo_shell/src/ek18/src/kermit.c:841-853 | Two packets of equal length that differ only within a burst of 16 consecutive bits, wherever it lies, have different type-3 checks; two adjacent bytes are the case of a burst on byte boundaries |
| `BlockCheck.CrcFromIsInjective` | samples/tmo_shell/src/ek18/src/kermit.c:841-853 | Different registers stay different over any common text |
| `BlockCheck.ByteStepIsInjective` | samples/tmo_shell/src/ek18/src/kermit.c:841-853 | One byte of the CRC is injective in the register |
| `BlockCheck.ByteStepIsLinear` | samples/tmo_shell/src/ek18/src/kermit.c:841-853 | and linear over exclusive or |
| `BlockCheck.TableStepIsByteStep` | samples/tmo_shell/src/ek18/src/kermit.c:187-219 | The step with the two 16-entry tables of K_INIT is eight steps of the bitwise CRC-CCITT with polynomial 0x8408 |
| `CrcDivision.CrcIsRemainder` | samples/tmo_shell/src/ek18/src/kermit.c:841-853 | The type-3 check is the remainder of the message, each byte with its low bit first and sixteen zeros behind, divided by x^16 + x^12 + x^5 + 1, with its bits reversed |
| `CrcDivision.RegisterIsRemainder` | samples/tmo_shell/src/ek18/src/kermit.c:841-853 | The shifting register is the mirror image of a long division of polynomials, sixteen places ahead of it |
| `BlockCheck.CtlFlipsBitSix` | samples/tmo_shell/src/ek18/src/kermit.h:407 | The macro ctl flips bit 6 of every byte and no other, by which a control character and its letter change places |
| `BlockCheck.Checker.CrcOf` | samples/tmo_shell/src/ek18/src/kermit.c:841-853 | chk3 on a NUL-terminated buffer is the bitwise CRC of the text before the NUL |
| `BlockCheck.Checker.SumOf` | samples/tmo_shell/src/ek18/src/kermit.c:826-831 | chk2 is the byte sum modulo 65536, not modulo 4096 |
| `BlockCheck.Checker.FoldedSumOf` | samples/tmo_shell/src/ek18/src/kermit.c:816-821 | chk1 is that sum folded to six bits |
| `Packet.ParseInvertsPrint` | samples/tmo_shell/src/ek18/src/kermit.c:281-430 | For short and long headers, every number 0..63, type and NUL-free data, the K_RUN parser gets back what spkt printed, whatever follows in the buffer: always with check types 1 and 3, with type 2 if and only if the sum is below 4096 |
| `Packet.ParseReceived` | samples/tmo_shell/src/ek18/src/kermit.c:281-430 | When the data have been altered on the way, length for length, the parser accepts them, up to a NUL, if and only if the check printed over the original passes over them, and otherwise reports a bad check |
| `Packet.CheckReadBack` | samples/tmo_shell/src/ek18/src/kermit.c:345-445 | Block check fields of all three types read back exactly, except that type 2 loses the upper four bits |
| `Packet.ErrorPacketIsRecognised` | samples/tmo_shell/src/ek18/src/kermit.c:380-448 | An E packet with a type-1 check, short or long, is accepted as such under every check type if and only if its message has at least as many characters as the check in force has more than one |
| `Packet.DamagedHeaderIsReported` | samples/tmo_shell/src/ek18/src/kermit.c:309-324 | One damaged character in the extended header of a printed long packet is reported as a bad header if and only if it is the check itself or changes the check over the others |
| `Packet.DataPacketFits` | samples/tmo_shell/src/ek18/src/kermit.c:1557-1560 | A field within the limit of encode fits the packet buffer together with header, check and terminator |
| `Packet.Writer.Spkt` | samples/tmo_shell/src/ek18/src/kermit.c:864-972 | The bytes handed to txd are mark, header, data, block check over header and data, and terminator, and they are kept for repetition |
| `Packet.Writer.PutHeader` | samples/tmo_shell/src/ek18/src/kermit.c:881-901 | Short and extended headers, the latter with its own check |
| `Packet.Writer.PutCheck` | samples/tmo_shell/src/ek18/src/kermit.c:905-960 | The check covers everything after the mark |
| `Framing.WireRoundTrip` | samples/tmo_shell/src/ek18/src/zephyrio.c:120-220 | Noise that holds no mark, then a printed packet: readpkt returns its body, without the eighth bits of the data where parity is in use, and leaves the rest of the line unread; the parser then recovers the packet with the data as seen if and only if the check passes over these (for data that cross as they are: type 2 if and only if the sum fits) |
| `Framing.FramingInvertsPrinting` | samples/tmo_shell/src/ek18/src/zephyrio.c:140-218 | readpkt returns exactly the bytes between mark and terminator, for short and long packets; with parity, with the eighth bits of the data gone |
| `Framing.ReadPkt` | samples/tmo_shell/src/ek18/src/zephyrio.c:120-220 | The loop with its bulk reads of arbitrary size returns what a byte-by-byte reader would, including too long packets and three control-Cs |
| `Framing.NoiseIsSkipped` | samples/tmo_shell/src/ek18/src/zephyrio.c:203-206 | Bytes before the mark have no effect, control-Cs included unless three come in a row in remote mode |
| `Framing.OnlyThreeInterrupt` | samples/tmo_shell/src/ek18/src/zephyrio.c:191-200 | Before a mark the program is stopped by three control-Cs in a row in remote mode, and by nothing else |
| `Framing.MarkRepeated` | samples/tmo_shell/src/ek18/src/zephyrio.c:203-206 | A second mark before the length changes nothing |
| `Framing.DamagedLengthIsDropped` | samples/tmo_shell/src/ek18/src/zephyrio.c:176-218 | A long packet whose header check is wrong is read up to the next carriage return or line feed and no further, and is refused if that is beyond the limit |
| `Framing.ShortIsWithin` | samples/tmo_shell/src/ek18/src/zephyrio.c:149-218 | A packet that does not announce itself as long is stored within r_maxlen + 1 or 256 bytes |
| `Framing.LongIsWithin` | samples/tmo_shell/src/ek18/src/zephyrio.c:149-218 | A long packet with a good header is stored within r_maxlen + 1 bytes or the length it announces, which the bulk read does not compare with r_maxlen |
| `Framing.FitsTheSlot` | samples/tmo_shell/src/ek18/src/zephyrio.c:149-218 | A printed packet fits the 2008 bytes of a slot buffer if and only if its data does, and it is stored either way |
| `Negotiation.NegotiationAgrees` | samples/tmo_shell/src/ek18/src/kermit.c:1005-1173 | For every parity at either end, every check type and whether or not either offers attributes, the exchange ends in agreement both ways: same prefix characters and flags, same check type and capabilities, eighth-bit prefixing on at both ends exactly when one of them has parity, attributes exactly when both offer them, lengths the codec can work with |
| `Negotiation.AnnouncementIsUnderstood` | samples/tmo_shell/src/ek18/src/kermit.c:1006-1173 | For any two ends: what one announces is what spar at the other adopts, parameter by parameter, and nothing else changes; the packet length is the smaller of what was asked for and 2000, so within what the other end can take if and only if that is at least 10 (94 without long packets) |
| `Negotiation.MissingFieldsChangeNothing` | samples/tmo_shell/src/ek18/src/kermit.c:1006-1081 | An announcement that stops early is adopted as far as it goes, and the parameters of the missing fields stay |
| `Negotiation.CapabilitiesEnd` | samples/tmo_shell/src/ek18/src/kermit.c:1079-1081 | The capability fields end with the first that does not announce another, or with the string |
| `Negotiation.Negotiator.Spar` | samples/tmo_shell/src/ek18/src/kermit.c:1006-1111 | spar, step by step, arrives at the adopted parameters for every parameter string, however short |
| `Negotiation.Negotiator.Rpar` | samples/tmo_shell/src/ek18/src/kermit.c:1115-1173 | rpar announces with check type 1 and puts its own back |
| `Negotiation.AnnouncementsArePlain` | samples/tmo_shell/src/ek18/src/kermit.c:1115-1173 | Both announcements are 13 characters of seven-bit printable text |
| `Negotiation.ShortAnnouncementIsMisread` | samples/tmo_shell/src/ek18/src/kermit.c:1083-1095 | A parameter string of two to nine fields makes spar read a long packet length from fields that mean something else: 80 was asked for, at least 950 is used |
| `Negotiation.ShortLengthHonoured` | samples/tmo_shell/src/ek18/src/kermit.c:1006-1095 | The maximum length of a peer without long packets is honoured for all strings of n fields if and only if n is 1 or at least 10 |
| `Negotiation.CapasStayKnown` | samples/tmo_shell/src/ek18/src/kermit.c:1050-1080 | spar only ever clears capability bits: a known bit is set afterwards if and only if it was and the other side, if it says, offers it; no other bit is |
| `Attributes.AttributeRoundTrip` | samples/tmo_shell/src/ek18/src/kermit.c:1289-1421 | Reading the attribute string of any file below 10^14 bytes with a date below 20 characters gives back type, length and date |
| `Attributes.NumberRoundTrip` | samples/tmo_shell/src/ek18/src/kermit.c:1241-1274 | The number read from the decimal form of n is n |
| `Attributes.NumString` | samples/tmo_shell/src/ek18/src/kermit.c:1253-1274 | Succeeds exactly for numbers that leave room for a NUL and a spare byte, and leaves the decimal digits at the front of the buffer |
| `Attributes.StringNum` | samples/tmo_shell/src/ek18/src/kermit.c:1242-1250 | The value of the leading digits after blanks |
| `Attributes.SAttr` | samples/tmo_shell/src/ek18/src/kermit.c:1352-1419 | Length and date go in only when they fit, in the order of the source |
| `Attributes.GAttr` | samples/tmo_shell/src/ek18/src/kermit.c:1290-1346 | Every attribute is noted or skipped as its tag and length say |
| `Attributes.LastOnesCount` | samples/tmo_shell/src/ek18/src/kermit.c:1290-1346 | Of any list of attributes the last date, the last length in bytes, the last in kilobytes and the last type that says text or binary count |
| `Attributes.UnknownIsSkipped` | samples/tmo_shell/src/ek18/src/kermit.c:1333-1335 | An attribute with any other tag changes nothing, wherever it stands |
| `Attributes.KilobytesAreIgnored` | samples/tmo_shell/src/ek18/src/kermit.c:1339-1343 | A file length announced in kilobytes never becomes the file size |
| `MurataCrc.FinishIsCksum` | libs/dfu_murata_1sc/dfu_murata_1sc.c:148-174 | Update over the text and finish with its length is the POSIX checksum: the remainder of the message bits with the length appended, by polynomial 0x04C11DB7, complemented |
| `MurataCrc.UpdateComposes` | libs/dfu_murata_1sc/dfu_murata_1sc.c:148-156 | The value does not depend on how the text is cut into blocks |
| `MurataCrc.RegisterIsRemainder` | libs/dfu_murata_1sc/dfu_murata_1sc.c:148-156 | The register of the shifting algorithm is the remainder of a long division of polynomials |
| `MurataCrc.TableIsByteStep` | libs/dfu_murata_1sc/dfu_murata_1sc.c:98-137 | Every one of the 256 table entries is eight bit steps of its index |
| `MurataCrc.Crc32Update` | libs/dfu_murata_1sc/dfu_murata_1sc.c:148-156 | The table loop computes the bitwise update |
| `MurataCrc.Crc32Finish` | libs/dfu_murata_1sc/dfu_murata_1sc.c:166-174 | The length is appended without leading zero bytes, low byte first, and the result complemented |
| `MurataCrc.PreCheck` | libs/dfu_murata_1sc/dfu_murata_1sc.c:453-480 | The pre-check of an update computes the POSIX checksum and the size of the image after its header, for every cutting into blocks of at most 1024 bytes |
| `MurataCrc.Sha1Command` | samples/tmo_shell/src/tmo_file.c:191-219 | The shell command, with other blocks, another counter and another order of tests, computes the same checksum for every file of at least 256 bytes |
| `ModemUpload.UploadIsExact` | libs/dfu_murata_1sc/dfu_murata_1sc.c:518-579 | For sizes below 2^32 - 1024: the blocks sent are the image, with exactly one, the last, announcing the end, if and only if the image is longer than 1024 bytes and not a multiple of 1024 |
| `ModemUpload.SuccessIsReported` | libs/dfu_murata_1sc/dfu_murata_1sc.c:555-566 | For sizes below 2^32 - 1024: success is reported if and only if the image is longer than 1024 bytes, so wrongly exactly for its multiples above 1024 |
| `ModemUpload.ModemDfu.WriteImage` | libs/dfu_murata_1sc/dfu_murata_1sc.c:518-579 | For sizes below 2^32 - 1024 the loop, with its 32-bit offset, ends, sends the specified blocks, and reports success if and only if some block announced the end |
| `ModemUpload.LargestNeverEnd` | libs/dfu_murata_1sc/dfu_murata_1sc.c:530-576 | The 32-bit offset stays within the size, and the loop goes on, after any number of turns, if and only if the size is 2^32 - 1024 or more |
| `ModemUpload.ModemDfu.SendChunk` | libs/dfu_murata_1sc/dfu_murata_1sc.c:531-575 | One turn reads and sends one chunk, padded with zeros if the image has run out |
| `ModemUpload.FinalBlockIsNotLast` | libs/dfu_murata_1sc/dfu_murata_1sc.c:529-579 | For a multiple of 1024 above 1024 the block that announces the end is not the last one |
| `ModemUpload.NoFinalBlock` | libs/dfu_murata_1sc/dfu_murata_1sc.c:546-566 | An image of at most 1024 bytes is never properly ended |
| `ModemUpload.LongImage` | libs/dfu_murata_1sc/dfu_murata_1sc.c:518-579 | Of an image of more than 1024 bytes exactly the whole chunks go out, then the remainder with the end announced; of a multiple of 1024 the last 1024 bytes never do: an empty block announces the end in their place and an empty one with more announced follows |
| `ModemUpload.ShortImage` | libs/dfu_murata_1sc/dfu_murata_1sc.c:518-579 | An image of less than 1024 bytes goes out with more announced and nothing follows, of one of 1024 bytes nothing goes out, and for an empty one a chunk of zeros does |
| `GeckoFlash.GeckoDfu.WriteImage` | libs/dfu_gecko/dfu_gecko_lib.c:516-579 | For every image above 2048 bytes that the device has room for the loop ends with every page of the image erased and written once, in order, all bytes counted, and the device programmed as specified; shorter images are refused and nothing is written |
| `GeckoFlash.SlotHoldsFile` | libs/dfu_gecko/dfu_gecko_lib.c:383-443 | Programmed means: the slot starts with the file and everything outside its pages is as before, the other slot included, unless slot 0 gets more than 0x70000 bytes; then the rest of the file is at the start of slot 1 |
| `GeckoFlash.StalePadding` | libs/dfu_gecko/dfu_gecko_lib.c:404-408 | What follows the file in its last page is what the page before holds at the same place |
| `GeckoFlash.PaddingIsZeros` | libs/dfu_gecko/dfu_gecko_lib.c:404-408 | The last page is padded with zeros, as the comment says, if and only if the image fills its last page or the page before holds zeros at the same places |
| `GeckoFlash.PaddingNeedNotBeZeros` | libs/dfu_gecko/dfu_gecko_lib.c:404-408 | An image of 2049 bytes for which it is not |
| `GeckoFlash.GeckoDfu.Turn` | libs/dfu_gecko/dfu_gecko_lib.c:548-579 | One turn keeps the count of written pages one behind the count of turns, the last turn reads twice, and the loop variables change as the counting of turns says |
| `GeckoFlash.GeckoDfu.FileReadFlash` | libs/dfu_gecko/dfu_gecko_lib.c:419-443 | One read goes to the next page of the requested slot and nowhere else |
| `GeckoFlash.GeckoDfu.GetFwSize` | libs/dfu_gecko/dfu_gecko_lib.c:299-329 | Adds up to the length of the file for every way it is read |
| `GeckoFlash.OnePageNeverEnds` | libs/dfu_gecko/dfu_gecko_lib.c:548-579 | For an image of exactly 2048 bytes, which is accepted, the loop still goes on after any number of turns |
| `GeckoFlash.LoopEnds` | libs/dfu_gecko/dfu_gecko_lib.c:548-579 | Of the images accepted the loop goes on for ever exactly for those of 2048 bytes |
| `HttpResume.Download.Fetch` | samples/tmo_shell/src/tmo_http_request.c:449-550 | For every server: what is received is the concatenation of the responses, each asked for from the byte reached; the file equals it if and only if written equals received; the length is the first one announced; each retry is made while something is missing, and the loop ends, with at most 5 * received + 5 of them, complete, without a known length, or after five requests in a row that brought nothing; the status returned is exactly determined |
| `HttpResume.Download.Request` | samples/tmo_shell/src/tmo_http_request.c:470-495 | During one response every fragment keeps file and counters in step, and a content length once known is kept |
| `HttpResume.Download.Callback` | samples/tmo_shell/src/tmo_http_request.c:238-263 | One fragment: counted when received, stored as far as fs_write stores it |
| `HttpResume.GatheredIsPrefix` | samples/tmo_shell/src/tmo_http_request.c:238-263 | What the callback gathers over the first request and the resumed ones is a prefix of the resource if and only if every response was part of the resource from the byte asked for on; a response that ignores its range is never made good |
| `HttpResume.CompleteButFailed` | samples/tmo_shell/src/tmo_http_request.c:470-550 | A download whose first request fails and whose second completes the file returns the first status, an error |

## Left out

- Text mode of `readfile` and `writefile`: the content of a file is the byte stream `zgetc` yields at one end and `writef` is handed at the other; what `writefile` makes of it in text mode is not modelled.
- FORCE 3 (`bctf`): check type 5 is not modelled; `bctf` is 0 at both ends.
- Cancellation by the caller (`k->cancel`), and K_STATUS, K_QUIT and K_ERROR.
- Failures of openf, readf, writef, closef, finfo and txd: the functions behind the pointers succeed, and closing or opening a file is a change of the abstract state. openfile does not truncate an existing file; that is not modelled either.
- True sliding windows, and everything under the disabled compilation switches.
- Progress on lossy lines: it does not hold in general (`Recovery.LossThenNakIsFatal`). Proved instead: exactly when runs on perfect lines complete, and exactly which states can still be completed. No fairness of the lines is modelled.
- Damaged packets: in `Transfer` a damaged packet is one whose check fails or that is lost. Which damage the checks detect is proved separately (`BlockCheck.BurstIsDetected`).
- Packets out of order or duplicated by the line itself: the lines are FIFO; duplicates arise from repetition by either end.
- Integer widths of the number conversions and of the counters `sofar` and `filesize`: they are unbounded. The 16-bit sums, the 8-bit macros, the CRC registers and the 32-bit chunk counters are modelled with their widths.
- A packet printed with one check type and read with another, which happens only to packets that no longer matter: it is taken to be accepted as itself or refused.
- Length fields that point outside the slot buffer (`Packet.Wild`), and data fields that stop inside a prefix group (`Decode` is `None`, the engine's `Malformed`): there the C code reads past the terminator, and nothing is claimed.
- The overlap of the interleaved receive buffers: each slot has its own buffer.
- `s_remain`: it has 7 bytes here, for six leftover characters and the NUL; the source has 6. `static int c` is a field.
- `Kermit.opkt`: the object keeps the last packet as number, type and data; its bytes are the subject of `Packet.Writer.Spkt` and `Wire`.
- `Transfer.GoodSetup`: a name has 1 to 1023 bytes, what `filename` can hold at the receiver (`kermit.h:397`); a date has at most 19 characters, and where one end has parity no eighth bits, since attributes are not prefixed. `fileinfo` gives no date at all (`zephyrio.c:319-384`).
- `Names.EvenNamesCanBeSent`: names with a byte 128, which parity turns into a NUL, and names of more than 664 bytes, which may be cut, are covered only by the general condition of `Recovery.CompletionIsPossible`.
- KermitObject.Kermit.StartSending: file names are not empty, see above.
- KermitObject.Kermit.Receive: a field it accepts must not stop inside a prefix group; so too for `RightNumber`, `TakePacket`, `TakeName` and `TakeData`.
- KermitObject.Kermit.TakeAttributes: no attribute may run past the end of the field.
- RecvCodec.Decoder.DecodeData: the field must not stop inside a prefix group; so too for `DecodeName` and `TakeGroup`.
- KermitObject.Kermit.Proceed: the negotiated limits must leave room for seven data characters, the longest leftover and one more; so too for `TakeAnswer`, `BetweenFiles`, `WithinFile`, `AfterName` and `Opening`.
- KermitObject.Kermit.Run: packets must be fit in the sense of `Engine.Fit`; `Wire.DeliveriesAreFit` shows that they are in every run.
- Transfer.SuccessIsComplete: a receiver that stops a file with X or Z in an acknowledgement is part of the object (`Kermit.Cancel`) but not of the runs; what becomes of the file is `Refusals.StoppedFileIsKept`.
- `Transfer.Setup`: both ends ask for packets of 2000 characters and offer long packets; other limits are the subject of `Negotiation.AnnouncementIsUnderstood` only.
- Attributes.AttributeRoundTrip: lengths of 10^14 and more and dates of 20 characters and more are left out by `sattr` itself or cut by `gattr`.
- The timeouts, which readpkt does not implement, and the file name limits of the response structure.
- Attributes.GAttr: an attribute whose length field runs past the string is outside the contract, as the C code reads past the terminator there.
- A control-C noticed outside the byte stream (`zek_ctrl_c_sent`).
- MurataCrc.PreCheck: an empty file is excluded; there the source writes through a null pointer.
- SHA-1, the IEEE CRC printed beside the modem checksum, and header transfer: functions of the same bytes that influence nothing.
- Failures of reads, ioctl calls, flash erase and write, and the status checks that follow them: those calls succeed.
- GeckoFlash.GeckoDfu.WriteImage: images that run past the end of the device are excluded, as is the size 2048, for which `GeckoFlash.OnePageNeverEnds` is proved instead.
- ModemUpload.ModemDfu.WriteImage: sizes for which the loop never ends, and later updates without a reboot, for which the statics are not at their first values.
- Host names, sockets, TLS and URL parsing of the download.
- The PSM and eDRX timers, the RS9116 update, sensors, GNSS, BLE, Wi-Fi, MQTT and the shell commands: small members or device plumbing.
