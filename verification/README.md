# ZMODEM transfer: a verified model

This project models the protocol engine of the ZMODEM programs `zmtx` and `zmrx` and proves what
their design relies on.  It has three parts.

**The framing codecs** (`zmdm.c`).  A payload goes out as hex, CRC-16 or CRC-32 binary, Omen ESC8 (run
lengths, then seven-bit quoting), Pack-7 (base 88) or MobyTurbo, each with its own encoder and decoder.

| modules | what they hold |
|---|---|
| `Bytes`, `Numbers` | constants, the line as a stream of bytes and failures, byte order |
| `Quoting`, `Spans`, `Subpackets` | ordinary and MobyTurbo quoting, the word-at-a-time scanners, packets |
| `Omen`, `Rle` | seven-bit quoting and run-length coding |
| `Pack7` | base-88 groups |
| `Headers`, `HeaderLaws`, `HeaderDamage` | headers of all styles, the search for them, and what it makes of damaged ones |
| `Frames`, `Wire` | the choice of encoder and decoder, whole sessions |
| `Link` | `struct zmodem` as a class, input buffer and cursor |
| `TxData`, `RxData`, `OmenData`, `Pack7Data`, `TxHeaders`, `RxHeaders` | the loops over those buffers, proved against the functions above |

**The frame checks** (`crctab.c`), in `Crc` and `Crc16`: slicing-by-8 is byte-at-a-time is bit-serial
division, with the tables defined by the recurrence of their generator.  CRC-32 is the 32-bit FCS of
RFC 1662, appendix C.3.

**The programs** (`zmtx.c`, `zmrx.c`).

| modules | what they hold |
|---|---|
| `Peers` | step by step, what a sender and a receiver of one file may do, and what every run of one of them keeps |
| `Zmtx`, `Zmrx` | the send and receive loops, proved to take only such steps whatever the other side does |
| `Session` | the two machines over channels that damage what they carry, safe in every reachable state |
| `Delivery` | the histories of the two programs are a run in `Session`, so what is proved there holds of `SendFile` and `ReceiveSession` |

`Zmtx` and `Zmrx` record their steps in `acts`.  A step names what it takes off the line, and `Valid` says that
all steps together took what the line was to deliver, in order; so a program cannot act on anything that did not
arrive.  Each program works through a line that is fixed in advance; `Delivery.Together` says that there is an order of all
their steps in which what arrived is what the other side had sent by then, perhaps damaged.  The theorems of
`Session` follow for the file on disk and for the result of `SendFile`.

Progress.  `Zmtx.Coop` is a receiver that plays its part: it acknowledges what it is asked to, oldest request first
(the event `Acked`, which stands for the ZACK of whatever position was asked for), lets any time pass, asks for the
data again less than MAX_RETRIES times, and ends with ZRINIT when there has been time for the whole file.  With it
every transfer succeeds.  With any other receiver a transfer is given up only for a cause (`Peers.HasCause`), and
causes are on record as read.  `Zmrx.Fate` says what comes of any line for a file, with all faults, purges and
retries, and `Zmrx.Proceeds` for a session, when answers go out and the disk takes everything.

Assumptions of `Session` and `Delivery`: both channels are first in, first out; any item may be damaged, and
damage is detected; an item that is lost is one that arrives as noise; a purge drops some prefix of what is under
way; nothing else drops a subpacket from inside a frame that the receiver is reading; what goes by while the
receiver looks for a header is not taken for one (the scanner masks parity at zmdm.c:2560 and zmdm.c:2578, so this
cannot be proved); the source does not change and the destination is a prefix of it when the file is accepted.

Conventions.  `io.read` is a list of reads, of any sizes, with failures between them; when it is used up the
line is silent.  `io.write` and `io.flush` are a list of results.  A byte value is `bv8`, a CRC `bv16` or
`bv32`, so wrap-around is that of the source.  Positions are numbers, with the 2^32 limit written out.
`last_sent` is 0xff where the source has -1.

Where the code and its documentation disagree, the model follows the code: docs/protocol-state-machine.md:83
says that variable-length and run-length-encoded headers are not accepted, but `rx_header_raw` accepts them.

## Model

| member | source | states |
|---|---|---|
| Crc.ByteUpdateIsBitSerialDivision | crctab.c:146-152 | the table update of one byte is eight shift-and-subtract steps of division by the reflected polynomial 0xEDB88320, bits of the byte entering low bit first |
| Crc.SliceIsSteps | tools/generate_crc32_slicing.py:14-33 | entry i of slice k is the remainder of i after 8(k+1) division steps: what the slice recurrence computes is k more zero bytes |
| Crc.BaseTable | tools/generate_crc32_slicing.py:14-22 | the generated base table holds the division remainders of all 256 bytes |
| Crc.GenerateSlices | tools/generate_crc32_slicing.py:25-33 | the seven generated slices are the ones that slicing-by-8 indexes |
| Crc.BlockIsFold | crctab.c:159-172 | one slicing-by-8 step on eight bytes equals eight byte updates, for every register: linearity of division |
| Crc.Update32 | crctab.c:154-181 | crc32_update equals the byte-at-a-time fold for every register, start and length |
| Crc.ByteUpdateIsInjective | crctab.c:146-152 | for each byte, the update is one-to-one on the 32-bit register |
| Crc.BurstChanges32 | crctab.c:146-181 | streams that differ only inside four consecutive bytes never share a CRC-32 |
| Crc16.ByteIsSteps | crctab.c:127-133 | the CRC-16 table update is eight division steps by the CCITT polynomial, the byte entering below the register |
| Crc16.BufferUpdate | crctab.c:135-144 | crc16_buffer_update is the fold of the byte update |
| Crc16.ByteUpdateIsInjective | crctab.c:127-133 | for each byte, the update is one-to-one on the 16-bit register |
| Crc16.BurstChanges16 | crctab.c:127-144 | streams that differ only inside two consecutive bytes never share a CRC-16 |
| Quoting.ByteRoundTrip | zmdm.c:262-289 | reading the wire form of a byte gives the byte back, in ordinary and MobyTurbo mode, whatever was sent before it, and leaves no run of CANs |
| Quoting.PayloadRoundTrip | zmdm.c:1282-1383 | decoding a quoted payload yields exactly that payload and then what follows it on the line |
| Quoting.TakeRoundTrip | zmdm.c:1533-1604 | a counted number of quoted bytes is read back exactly, and no input beyond them |
| Quoting.EscapeLength | zmdm.c:626-667 | quoting never shrinks a payload and at most doubles it |
| Quoting.EscapeTransparent | zmdm.c:216-246 | quoted bytes hold no raw DLE, XON or XOFF of either parity and no CR behind '@' in ordinary mode, and never two CANs together in any mode |
| Quoting.CancelSafeNeverAborts | zmdm.c:1210-1227 | a wire without two CANs together is never counted as a five-CAN abort |
| Quoting.FiveCancelsAbort | zmdm.c:1210-1227 | five CANs in a row do abort, but not under MobyTurbo |
| Quoting.RuboutIsRead | zmdm.c:1282-1356 | the two quoted rubouts stand for 0x7f and 0xff |
| Quoting.QuotedControlIsRead | zmdm.c:1282-1356 | any control may stand quoted, whether or not it has to |
| Quoting.IllegalPairIsDropped | zmdm.c:1282-1356 | a pair that stands for nothing is dropped, and the byte behind it is read |
| Quoting.FlowControlIsNoise | zmdm.c:1282-1356 | XON and XOFF of either parity in front of a byte or inside its quoted pair do not change it |
| Spans.FlagTxExactly | zmdm.c:962-980 | the word test of the transmit scanner flags a word exactly when one of its bytes may need quoting, for 32-bit and 64-bit words of either byte order |
| Spans.FlagRxExactly | zmdm.c:1464-1519 | the word test of the receive scanner flags a word exactly when one of its bytes needs the slow path |
| Spans.TxCopyPlainSpan | zmdm.c:948-993 | the span copied is its own quoted form by the bytewise rule, from any previous byte, and the byte it stops at needs quoting by that rule |
| Spans.RxPlainSpan | zmdm.c:1464-1519 | the receive span is the longest run of bytes in the buffer that decode to themselves |
| Subpackets.PacketRoundTrip | zmdm.c:1616-1710 | every payload that fits is received as sent, with its terminator, from exactly the bytes it was sent as; only the XON behind ZCRCW is left |
| Subpackets.AcceptedExactly | zmdm.c:1632-1709 | for any line: the buffer gets the first min(capacity, ZMAXSPLEN) bytes, and a packet is accepted if and only if it ended, fitted, and carried the check of the whole stream |
| Subpackets.BurstRejected32 | zmdm.c:1684-1709 | the check of a packet never admits a stream that differs inside four consecutive bytes of payload and terminator |
| Subpackets.BurstRejected16 | zmdm.c:1781-1807 | the same for two consecutive bytes and CRC-16 |
| Subpackets.DamagedPacketRejected | zmdm.c:1684-1807 | a packet whose decoded stream is one such burst away from what its check was computed on is rejected, whatever its length and the buffer |
| Subpackets.PacketLength | zmdm.h:76 | an ordinary or MobyTurbo packet of L bytes takes at most 2L+11 wire bytes, the size of the buffer |
| Subpackets.PacketTransparent | zmdm.c:1043-1078 | a packet is transparent but for the XON behind ZCRCW, and holds no two CANs together |
| TxData.BufferTx | zmdm.c:626-643 | buffer_tx appends the bytewise quoted form and nothing else |
| TxData.BufferMobyturbo | zmdm.c:645-667 | buffer_mobyturbo appends the MobyTurbo quoted form and nothing else |
| TxData.BufferPayload | zmdm.c:1013-1041 | all three payload loops, the word-at-a-time one among them, write the bytes of the bytewise rule, in at most twice the payload's length |
| TxData.TxQuotedData | zmdm.c:1043-1085 | one write puts out exactly the quoted packet, and last_sent follows it |
| RxData.RxCollect | zmdm.c:1632-1683 | plain spans by memcpy and slow bytes one at a time collect the stream that byte-by-byte decoding yields, clipped to the buffer, with the register over all of it once it overflows |
| RxData.RxTake | zmdm.c:1562-1604 | the bytes of a frame check, as byte-by-byte decoding yields them |
| RxData.RxCheckedData | zmdm.c:1616-1807 | result, payload, terminator, consumed input and CAN count are those of the specification on the line, however it was divided into reads; a stream that is too long leaves the first bytes that fit and is refused |
| Link.ReadsDoNotMatter | zmdm.c:1176-1206 | reads that deliver the same bytes are the same line |
| Link.RxCursorByte | zmdm.c:1176-1206 | the next byte of the line, from the buffer or a new read; a read of nothing, or of too much, is an I/O error |
| Link.RxCursorRaw | zmdm.c:1210-1227 | the next byte with the CAN count: the fifth CAN in a row cancels, except in MobyTurbo |
| Link.RxCursorSlow | zmdm.c:1282-1356 | the slow path computes the decoding function from any byte read already |
| Link.RxCursor | zmdm.c:1369-1383 | the next decoded byte or terminator is a function of the line |
| Link.Rx | zmdm.c:1521-1531 | the same through the protocol state |
| Omen.OmenByteDecodes | zmdm.c:147-197 | the seven-bit form of every byte decodes to it, with and without ESCCTL |
| Omen.Denoise | zmdm.c:1386-1446 | decoding is not changed by any parity bits or by XON and XOFF anywhere: the decoder gives and leaves what it would on the clean line |
| Omen.OmenBytesClean | zmdm.c:147-197 | everything encoded is below 0x80, holds no flow control, and no two CANs together |
| Rle.RleRoundTrip | zmdm.c:773-820 | the run-length symbols of every payload decode to it |
| Rle.OmenRoundTrip | zmdm.c:1863-1982 | an ESC8 packet comes back whole for every payload that fits, even with every bit 7 set or cleared and flow control inserted anywhere |
| Rle.OmenWireSevenBit | zmdm.c:753-843 | every wire byte of an ESC8 packet is below 0x80, and only the last XON is flow control |
| Rle.RleAcceptedExactly | zmdm.c:1902-1981 | for any line: the buffer gets the first bytes that fit, and acceptance if and only if the symbols ended between tokens, the payload fitted, and the check of all symbols held |
| OmenData.FlushOmen | zmdm.c:670-683 | a flush moves the buffer to the line and empties it |
| OmenData.BufferOmenRaw | zmdm.c:685-697 | a full buffer is flushed first: no byte is lost or overwritten |
| OmenData.BufferOmenByte | zmdm.c:699-719 | the one to three bytes of a symbol are buffered together |
| OmenData.BufferRuns | zmdm.c:753-820 | flushed and buffered bytes together are the unbuffered encoding of the payload's runs, with the frame check over the symbols |
| OmenData.TxOmenData | zmdm.c:753-843 | the successive flushes concatenate to the ESC8 packet |
| OmenData.RxOmenCursor | zmdm.c:1386-1446 | the seven-bit decoder computes its function of the line |
| OmenData.RxRleData | zmdm.c:1863-1982 | result, payload, consumed input and CAN count are those of the specification on the line; a payload that is too long leaves the first bytes that fit and is refused |
| Pack7.NeverWraps | zmdm.c:2013-2016 | the test in front of each digit refuses it exactly when 32 bits would not hold the value |
| Pack7.AcceptedGroup | zmdm.c:1985-2033 | every digit string the decoder accepts is exactly the encoding of what it returns |
| Pack7.EncodedGroup | zmdm.c:851-866 | the encoding of one to four bytes has their value and completes to them |
| Pack7.GroupOffLine | zmdm.c:1985-2033 | an encoded group is read back from any point inside it, on a noisy line |
| Pack7.UnpackGroups | zmdm.c:2053-2078 | payloads of every length modulo four are unpacked, up to the end mark |
| Pack7.PackRoundTrip | zmdm.c:2035-2109 | a Pack-7 packet comes back whole for every payload that fits, even on a noisy seven-bit line |
| Pack7.PackAcceptedExactly | zmdm.c:2060-2108 | the same for Pack-7, whose check covers the payload |
| Pack7.PackBodyPrintable | zmdm.c:883-922 | everything sent but the XON is between 0x21 and 0x79 |
| Pack7.GroupsLength | zmdm.c:851-881 | a payload of L bytes takes L plus a quarter of L, rounded up, digits |
| Pack7.PackLength | zmdm.c:883-922 | no packet fills the wire buffer, so it is never flushed in the middle |
| Pack7Data.Pack7EncodeGroup | zmdm.c:851-866 | shifting in bytes and dividing out digits computes the encoding without losing a bit of 32 |
| Pack7Data.BufferPack7Packet | zmdm.c:883-916 | the packet is buffered without a single write: the ignored results cannot be failures |
| Pack7Data.TxPack7Data | zmdm.c:883-922 | one flush puts out exactly the Pack-7 packet |
| Pack7Data.RxPack7Group | zmdm.c:1984-2033 | group, error and consumed input are those of the specification |
| Pack7Data.RxPack7Data | zmdm.c:2035-2109 | result, payload, consumed input and CAN count are those of the specification on the line; a payload that is too long leaves the first bytes that fit and is refused |
| Headers.PositionRoundTrip | zmdm.c:1088-1106 | a position is read from a header as it was set |
| HeaderLaws.HexVariableRoundTrip | zmdm.c:2275-2345 | a hex header with its length in front is read back |
| HeaderLaws.BinaryRoundTrip | zmdm.c:2235-2384 | CRC-16 and CRC-32 binary headers are read back through the quoting |
| HeaderLaws.MobyRoundTrip | zmdm.c:2470-2518 | MobyTurbo headers are read back with the suffix in their check |
| HeaderLaws.OmenBodyRoundTrip | zmdm.c:2405-2468 | Omen headers are read back with the suffix in their check |
| HeaderLaws.BodyRoundTrip | zmdm.c:2596-2668 | the reader chosen by the style byte undoes the writer that chose the style, and selects the modes that fit |
| HeaderLaws.HeaderRoundTrip | zmdm.c:2528-2687 | every header of every style and length is found and read back from whatever receive modes were set before |
| HeaderLaws.ProbeIsSeen | zmdm.c:2549-2560 | the probe string in front of a header is noticed |
| HeaderLaws.HeaderTransparent | zmdm.c:324-365 | ordinary headers are transparent but for the XON of a hex one; no header holds two CANs together |
| HeaderLaws.RleHeaderRoundTrip | zmdm.c:2610-2655 | the headers that announce run-length coded data are read like those with a CRC-32, and select that coding |
| HeaderDamage.WithItsCheck | zmdm.c:324-565 | a header with its own check in place is the header as it is sent: what follows speaks of the same wires |
| HeaderDamage.BurstBreaksCheck | zmdm.c:2235-2518 | a burst inside a header, of four bytes under a CRC-32 and two under a CRC-16, leaves the check that was sent wrong |
| HeaderDamage.DamagedHeaderIsPassedOver | zmdm.c:2657-2685 | for each style: a header whose check does not hold, some idle bytes, and a good header of any style: the good one is found; or, when errors are reported, INVALID_HEADER, with the good one still on the line |
| HeaderDamage.BurstIsPassedOver | zmdm.c:2657-2685 | the same for a header as it was sent but for such a burst |
| HeaderDamage.ChangedDigitIsPassedOver | zmdm.c:2657-2685 | the same for a hex header with one character changed into another digit, or into none |
| HeaderDamage.SpuriousPadIsPassedOver | zmdm.c:2562-2580 | ZPADs with no header behind them are passed over, reported or not |
| HeaderDamage.UnknownStyleIsPassedOver | zmdm.c:2651-2656 | a style byte that stands for no header is passed over or reported, and the next header is still there |
| HeaderDamage.FiveCancelsEndTheSearch | zmdm.c:1210-1227 | five CANs in a row end the search for a header, but not under MobyTurbo |
| HeaderDamage.HexOfAnyParity | zmdm.c:2275-2345 | neither the parity of hex digits nor the form of their end of line matters |
| TxHeaders.TxHexHeaderLength | zmdm.c:324-364 | the hex header goes out, with XON unless it is ZACK or ZFIN |
| TxHeaders.TxBin32Header | zmdm.c:374-409 | the CRC-32 binary header goes out as specified |
| TxHeaders.TxBin16Header | zmdm.c:411-445 | the CRC-16 binary header goes out as specified |
| TxHeaders.TxMobyHeader | zmdm.c:536-565 | the MobyTurbo header goes out as specified |
| TxHeaders.TxOmenHeader | zmdm.c:451-487 | the Omen header goes out as specified |
| TxHeaders.TxHeaderLength | zmdm.c:567-589 | the style is chosen by the flags; a length ZMODEM does not have is refused and nothing is sent |
| TxHeaders.TxMobyturboProbe | zmdm.c:598-614 | the five probe bytes go out as they are |
| TxHeaders.TxDataPacket | zmdm.c:995-1086 | tx_data puts out the packet in the encoding the flags select; one that is too long is refused and nothing is sent |
| TxHeaders.SelectZrposEncoding | zmtx.c:225-262 | Pack-7 or MobyTurbo headers are used exactly when asked for and possible, never both |
| RxHeaders.RxBinaryHeader | zmdm.c:2235-2384 | binary headers are read as specified; rxd_header_len stays 0 unless the check holds |
| RxHeaders.RxHexHeader | zmdm.c:2275-2345 | hex headers are read as specified, end of line included |
| RxHeaders.RxVariableLength | zmdm.c:2386-2402 | only lengths from 4 to ZMAXHLEN are accepted |
| RxHeaders.RxOmenHeader | zmdm.c:2405-2468 | Omen headers are read as specified, and select their encoding only if the check holds |
| RxHeaders.RxMobyHeader | zmdm.c:2470-2518 | MobyTurbo headers are read as specified |
| RxHeaders.RxHeaderRaw | zmdm.c:2528-2687 | which header is found, the probe, the modes and the rest of the line are those of FindHeader, whatever stands in front; what FindHeader does with damaged headers is in HeaderDamage |
| RxHeaders.RxDataPacket | zmdm.c:2111-2168 | rx_data uses the decoder that the last header selected |
| Frames.DataRoundTrip | zmdm.c:2111-2168 | for all flags: in the modes its header left, rx_data undoes whatever encoding tx_data chose |
| Frames.PiecesRoundTrip | zmdm.c:995-1086 | so for every list of packets behind a header |
| Frames.FrameRoundTrip | zmdm.c:567-589 | header and packets are received as sent, from exactly their bytes, whatever mode was used before |
| Frames.SessionRoundTrip | zmdm.c:2528-2687 | any list of frames, each with flags of its own, is received frame by frame as sent |
| Frames.SessionSafe | zmdm.c:537-565 | no sequence of frames puts two CANs together |
| Frames.SessionNeverAborts | zmdm.c:1210-1227 | so no sequence of frames is ever taken for a session abort |
| Frames.SessionScreened | zmdm.c:216-246 | over any list of frames in the ordinary styles, across all boundaries: no raw DLE, XON or XOFF of either parity but the XON behind hex headers and ZCRCW packets, and no CR directly behind '@' |
| Wire.SessionOverAnyReads | zmdm.c:1176-1227 | frames are received as sent however io.read divides the line |
| Peers.WindowSafety | zmtx.c:480-493 | in every run: acknowledged <= position <= acknowledged + window, bytes since the last acknowledged ZCRCW within the receiver's buffer, position within the file |
| Peers.AcknowledgedNeverFalls | zmtx.c:358-375 | in any stretch of a run without a new send_from, the acknowledged position never goes back |
| Peers.FewRequests | zmtx.c:551-562 | never more than eight requests for acknowledgement are out, so the answers still to come cannot use up MAX_RETRIES attempts at ZEOF |
| Peers.NoSelfMadeStall | zmtx.c:551-607 | on a full window an acknowledgement beyond the acknowledged position has been asked for, and its answer leaves less than a quarter window out |
| Peers.RecoveryStopsAndWaits | zmtx.c:545-603 | after a recovery, in any run: one block goes out and no more until exactly its end is acknowledged |
| Peers.EveryBlockIsAwaited | zmtx.c:539-603 | with -s, against a receiver that cannot overlap its disk, and for a window on a half-duplex line: every block ends in ZCRCW, and the acknowledgement of exactly its end is read before the next |
| Peers.WaitsForAReason | zmtx.c:545-562 | in no other mode does a block end in ZCRCW, but behind a recovery and when it fills the receiver's buffer |
| Peers.DismissalWasRead | zmtx.c:945-1045 | a transfer that ends by an answer ends by one that was read and that does end transfers |
| Peers.RunAccounted | zmtx.c:295-306 | every recovery has a timeout, ZNAK, false acknowledgement or ZRPOS that was read, each its own; every ZEOF but the first has a timeout or a ZACK |
| Peers.CausesWereRead | zmtx.c:934-1054 | each cause for giving up is on record as read: a fatal answer, a failing line, MAX_RETRIES disturbances, or MAX_RETRIES answers to ZEOF that settle nothing |
| Peers.NoCauseToGiveUp | zmtx.c:934-1054 | with fewer than MAX_RETRIES disturbances read, and fewer than MAX_RETRIES answers to ZEOF that settle nothing, no fatal answer and no failing line, there is no cause to give up |
| Peers.ReceiverRuns | zmrx.c:255-419 | the file is what it was plus the accepted subpackets, and behind a disk that failed a part of one more; its length stays below 2^32; fewer than MAX_RETRIES counted requests between accepted subpackets; at most one extended ZRPOS |
| Peers.AcceptedFile | zmrx.c:255-419 | the same for a whole session, from where the file is accepted, to be resumed or written anew |
| Peers.RepliesNameTheLength | zmrx.c:210-244 | every ZRPOS and ZACK carries exactly the length committed where it was sent |
| Peers.NoInviteInTheFile | zmrx.c:1209-1213 | between the accepted ZFILE and its ZEOF no ZRINIT goes out |
| Peers.DebtsArePaid | zmrx.c:398-413 | what asks for an acknowledgement or cannot be used is answered by the next thing sent, with the committed length, or the transfer ends |
| Session.StepKeeps | zmtx.c:422-644 | the invariant of sender, receiver and both channels is kept by every step, damage and purge |
| Session.ReceivedIsPrefix | zmrx.c:255-419 | in every reachable state the received file is a prefix of the source, and equal to it once ZEOF was accepted |
| Session.AcknowledgedIsCommitted | zmtx.c:580-593 | the accepted acknowledged position never exceeds the receiver's committed length, whatever stale answers are under way |
| Session.SuccessIsDelivery | zmtx.c:1004-1019 | the sender succeeds only when the receiver has committed the whole file |
| Session.NeverOfferedAgain | zmrx.c:1164-1222 | a receiver that is done has no ZFILE of this session before it any more |
| Session.DeliveryIsPossible | zmtx.c:940-1051 | whatever the window, the buffer, the mode and the beginning that is there already, every file below 2^32 bytes can be delivered by steps of the two programs, block by block, each with the terminator of its mode: a run to success exists |
| Delivery.JointRun | zmtx.c:422-644 | a history of the sender and one of the receiver, each reading at every moment only what the other had written by then, in order and perhaps damaged, are a run of the pair in Session |
| Delivery.ProgramsAreSafe | zmrx.c:255-419 | at every moment of the two programs' work the file on disk is a prefix of the source, complete once ZEOF was accepted; what the sender takes for acknowledged is on disk; a sender that has succeeded has delivered the file |
| Delivery.Transfer | zmtx.c:676-1055 | SendFile and ReceiveSession themselves: if each reads what the other wrote, SEND_SUCCEEDED means that the whole file is on disk, and whatever happens what is on disk is a prefix of it |
| Zmtx.AccountRecovery | zmtx.c:295-306 | a request beyond the furthest position resets the retries; any other uses one up |
| Zmtx.RoundsShrink | zmtx.c:295-306 | each way to account for a recovery round lowers one measure, although an advance of the receiver sets the attempted position back |
| Zmtx.Zmtx.RxHeader | zmdm.c:2689-2694 | which event ends the wait, and what it does to the sender, is a function of the line: nothing is passed over but what is no header; every event read is on record |
| Zmtx.Zmtx.Next | zmdm.c:2528-2560 | the next event of the line, recorded as read, and what it means to the sender; behind the last one only timeouts |
| Zmtx.Zmtx.IncreaseSubpacketSize | zmtx.c:265-275 | the size doubles up to the maximum |
| Zmtx.Zmtx.ReduceSubpacketSize | zmtx.c:277-293 | the size halves down to 128, and the maximum with it down to 1024; both stay sizes, 128 <= size <= maximum <= ZMAXSPLEN |
| Zmtx.Zmtx.ReadFileBlock | zmtx.c:172-202 | short and interrupted reads do not show; the end of the file is reported exactly when less than a full block is left |
| Zmtx.Zmtx.AcceptAcknowledgement | zmtx.c:358-375 | an acknowledgement of what was never sent is refused; any other can only raise the acknowledged position |
| Zmtx.Zmtx.AwaitWindow | zmtx.c:480-493 | the wait ends with room in the window or with something to act on; each turn of it goes through AwaitDue |
| Zmtx.Zmtx.AwaitDue | zmtx.c:480-493 | a wait on a full window may be entered only when an acknowledgement beyond the acknowledged position has been asked for and has not come: never a wait for nothing; a receiver that plays its part ends it only by ZACK or ZRPOS |
| Zmtx.Zmtx.TakeAnswer | zmtx.c:608-641 | one header in a send_from: ZACK raises the acknowledged position, is refused if it names what was never sent, and anything else ends the send_from in the state that goes with it |
| Zmtx.Zmtx.ReadSize | zmtx.c:511-523 | every read asks for at least one byte, and for as much as size, window and buffer allow |
| Zmtx.Zmtx.FrameEnd | zmtx.c:545-562 | exactly when each of the four terminators is used |
| Zmtx.Zmtx.AwaitAcknowledgement | zmtx.c:577-593 | only an acknowledgement of the current position ends the wait well; stale ones, and nothing else, are passed over |
| Zmtx.Zmtx.PollAnswers | zmtx.c:613-641 | between subpackets, everything there is is read; acknowledgements raise the acknowledged position, a header that does not come is no matter, and anything else ends the send_from |
| Zmtx.Zmtx.SendRead | zmtx.c:545-567 | exactly one subpacket with the bytes at the current position goes out, with the terminator that mode, window and buffer call for |
| Zmtx.Zmtx.SendNext | zmtx.c:494-567 | the next subpacket in the frame that is open or a new one: a full block of the current size, but at the end of the file, on a full window and in a full buffer |
| Zmtx.Zmtx.OpenFrame | zmtx.c:494-503 | ZDATA at the current position, unless a frame is open |
| Zmtx.Zmtx.Proceed | zmtx.c:577-642 | behind a subpacket: the acknowledgement of a ZCRCW and a new frame, or the answers so far; then a larger size |
| Zmtx.Zmtx.SendFrom | zmtx.c:421-644 | only steps that Peers allows in its mode, for any answers; each way of ending leaves the sender where send_file expects it; and with a receiver that acknowledges what it is asked to, the end of the file is reached with every window, buffer, -s, and after a recovery, unless the receiver asks for the data again |
| Zmtx.Zmtx.OfferFile | zmtx.c:863-926 | over the events alone: the first ZRPOS or ZSKIP is the result if fewer than MAX_RETRIES rounds end before it, and exactly one more ZFILE than those rounds has gone out with the file information; ZACKs and one ZRINIT a round cost nothing; else MAX_RETRIES ZFILEs and no position |
| Zmtx.Zmtx.AwaitNaming | zmtx.c:893-904 | one round: the wait for anything but ZACKs and a first ZRINIT |
| Zmtx.Zmtx.FinishFile | zmtx.c:1003-1045 | ZEOF at the length of the file until it is answered, and MAX_RETRIES times if it is not; success only by a ZRINIT that was read; acknowledgements still to come cannot use up the attempts |
| Zmtx.Zmtx.Settle | zmtx.c:945-1050 | a timeout, a ZNAK or a false acknowledgement starts again from the position last asked for, a ZRPOS from its own, both with smaller blocks; the end of the file leads to ZEOF; success only to ZRINIT, and failure has its cause |
| Zmtx.Zmtx.Round | zmtx.c:940-1050 | one turn of the recovery loop; with a receiver that plays its part it ends in success, or in a request to go on elsewhere, counted |
| Zmtx.Zmtx.SendFileData | zmtx.c:934-1054 | for any receiver: success, skipping and failure each if and only if the sender's state says so, and with a line and a file that work failure only for a cause, so every timeout, ZNAK and ZRPOS is recovered from until MAX_RETRIES of them bring no progress; at most 10 * 2^64 recoveries; and success with a receiver that plays its part, though it ask for the data again up to MAX_RETRIES - 1 times, from anywhere |
| Zmtx.Zmtx.SendFile | zmtx.c:676-1055 | the same from ZFILE on: with a line and a file that work, failure only by MAX_RETRIES offers that name nothing or for a cause; success if fewer than MAX_RETRIES timeouts, ZNAKs, false acknowledgements and ZRPOSs have been read and no answer that ends a transfer; and success with a receiver that names a position in fewer than MAX_RETRIES rounds and then plays its part, for every window, buffer and option |
| Zmrx.Zmrx.TxZrpos | zmrx.c:210-244 | ZRPOS names the committed length; the extended form goes out at most once |
| Zmrx.Zmrx.RxHeader | zmdm.c:2689-2694 | the next header, in hand until a step uses it; what goes by before it is on record as ignored |
| Zmrx.Zmrx.RxData | zmdm.c:2111-2168 | a whole subpacket that fits, or what arrived instead, in hand until a step uses it |
| Zmrx.UndisturbedArrives | zmrx.c:255-419 | the Fate of a line on which nothing goes wrong is the bytes of its subpackets |
| Zmrx.FewerFaults | zmrx.c:280-291 | what can be received after some faults is received the same after fewer |
| Zmrx.Zmrx.Fault | zmrx.c:322-352 | what cannot be used: a purge, and a counted request or the end |
| Zmrx.Zmrx.Recover | zmrx.c:280-291 | a counted request goes out, or the retries are used up and the transfer ends |
| Zmrx.Zmrx.CommitData | zmrx.c:366-411 | a whole subpacket is appended and acknowledged if it asks for that; a length of 2^32 is refused; a disk that fails ends the transfer |
| Zmrx.Zmrx.ReceiveFrame | zmrx.c:334-417 | each subpacket committed is one that arrived, in order, until the frame ends or is given up; on a line and a disk that work, exactly what Fate says |
| Zmrx.Zmrx.Dispatch | zmrx.c:292-333 | what each header leads to, with the header itself on record; only ZEOF at the committed length ends the file |
| Zmrx.Zmrx.ReceiveFileData | zmrx.c:255-419 | only allowed steps, for anything that arrives, and what they take off the line is what had arrived, item by item; on a line and a disk that work it ends at ZEOF if and only if Fate has bytes for the line, and then the file is the old one and those bytes: through faults, purges and retries |
| Zmrx.Zmrx.TxZrinit | zmrx.c:421-458 | ZRINIT goes out only before the file was accepted or when all of it has arrived |
| Zmrx.Zmrx.Establish | zmrx.c:1135-1148 | the first contact: the header found is the first one other than ZRQINIT, if fewer than ten ZRQINITs and silences stand before it, and each of those has cost one more ZRINIT |
| Zmrx.Zmrx.ReceiveFile | zmrx.c:643-858 | malformed file information is answered by ZNAK, a file declined by ZSKIP, silence by nothing; an accepted one is received exactly as Fate says, or the session fails and ZFERR goes out |
| Zmrx.Zmrx.OfferedAgain | zmrx.c:304-318 | a repeated ZFILE in the middle of a file: its information is read and not used, and the committed length is named again |
| Zmrx.Zmrx.Serve | zmrx.c:1164-1207 | one header in the dispatch loop; ZRQINIT and ZEOF make the next invitation due |
| Zmrx.SoughtBehind | zmrx.c:1135-1148 | silences, ZRQINITs at the first contact and what is no header change nothing but the tries left |
| Zmrx.LateOffer | zmrx.c:1135-1148 | a ZFILE behind fewer than ten ZRQINITs and silences leads to what it would lead to at once |
| Zmrx.WelcomeArrives | zmrx.c:1164-1226 | a well-formed file on a line on which nothing goes wrong arrives whole |
| Zmrx.Zmrx.NextHeader | zmrx.c:1209-1222 | the wait for the next header: found if fewer than MAX_RETRIES silences stand before it, each answered by one more ZRINIT, and one in front where it is due |
| Zmrx.Zmrx.ReceiveSession | zmrx.c:1115-1260 | a session of one file: a purge, the first contact, the dispatch loop and ZFIN; with a line and a disk that work, whether a file arrives, its bytes, and whether ZFIN closes the session are exactly what Proceeds says of the line, whatever stands on it; Peers.NoInviteInTheFile holds of its steps |

## Left out

- Platform adapters, option parsing, usage text, progress display and diagnostics: no protocol content.
- File policy in `receive_file` (names, times, protect, clobber, newer) is one decision: overwrite, resume or decline. What stands behind the name in the file information is not parsed, and opening, flushing and closing the file cannot fail.
- Clocks: a timeout is an event that may happen at any wait.
- The literal CRC tables: they are defined by the recurrence that generates them.
- The reduced-memory builds: without slicing-by-8 the byte loop alone remains, and ZMAXSPLEN is 8192 throughout.
- Receive-only ESC8 in its legacy form is decoded as in the source, but there is no encoder to pair it with.
- HeaderDamage.BurstIsPassedOver: does not cover a burst that reaches from a header into its check. The length digits of a variable hex header are covered by no check.
- `tx_classes` is a function of the byte, not a table filled on first use.
- `rx_32_data` and `rx_16_data` are one method with the frame check as a parameter, and likewise the two binary header readers: they differ in nothing else.
- `cancel_count` is unbounded: the counter of the source would wrap only behind 2^32 CAN bytes in a row.
- `rx_header_and_check`, which answers unknown styles with ZNAK, and ZSINIT: the sender never sends ZSINIT.
- `rx_poll`: an event of the sender's script says whether something is ready.
- In `Zmtx` and `Zmrx` headers and subpackets are items; their way over the wire is the subject of `Frames`, and their fields beyond the position (capabilities in ZRINIT, options in ZFILE) are parameters. ZCOMPL, ZFERR, and ZFIN from the receiver are one kind of answer, `OtherUp`: a sender of a file treats them alike. The ZFERR for a file that cannot be opened or flushed is left out with those failures.
- The capabilities of a receiver do not change during a session of one file.
- The checks for positions beyond 2^32 in `send_from` cannot fail for a source that does not change, so they have no branch in `Zmtx.SendFrom`.
- Sessions of several files: `Session` starts with empty channels, while a second file may start with ZRINITs and ZEOFs of the first still under way; nothing is proved of it, and a second ZFILE ends `Zmrx.ReceiveSession`. The session commands of `zmtx` around `send_file` (ZRQINIT, ZFIN) are steps of `Peers` and not of `Zmtx`.
- The over-and-out characters behind ZFIN, and a purge that fails.
- Why a receiver hears nothing: `Silent` and `Dead` may arrive at any time, whatever the sender has sent, and are no part of what `Delivery.Together` compares.
- Lines that drop an answer or an item without a trace.
- Zmtx.Zmtx.SendFile: success in spite of timeouts, ZNAKs and false acknowledgements is stated over the events read in the transfer (`Peers.Bearable`), and over the line alone only for a receiver that plays its part (`Coop`), or one that says nothing until ZRINIT to a stream that asks for nothing.
- Zmrx.Zmrx.ReceiveFileData: says nothing of how far a transfer gets when an answer cannot be sent or the disk fails, but that the file is then the accepted subpackets and a part of one more.
- Zmrx.Zmrx.ReceiveSession: does not tell apart the answers to other session requests, and says less when an answer cannot be sent or the disk fails.
