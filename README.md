# S-Bus protocol core, modelled in Dafny

This project models the protocol core of a Home Assistant integration for
SAIA PCD controllers that speak S-Bus. It covers four parts:

- **Ether-S-Bus engine** (`SBusProtocol`): the table-driven CRC-16, the
  16-bit sequence counter, the telegram builder and the response validator.
  It also covers the register and flag operations, the device
  identification, and the datagram queue that receives replies.
- **Generic S-Bus engine** (`SBusProtocolBase`): its own framing with an
  8-bit telegram counter, its validator, the register and flag operations,
  and the best-effort device identification with its version formatting.
- **Profi-S-Bus gateway**: the two-byte framing around a telegram and the
  reader/writer guard of the stream connection.
- **Polling coordinator**: the connection-health state machine. It tracks
  whether the link is connected and how many consecutive polls failed,
  reconnects when needed, fills the data dictionary and caches the device
  information.

Modules, one per file:

| file | module | contents |
|---|---|---|
| errors.dfy | `SBusErrors` | the exceptions as one `Error` datatype; `Result`, `Option`, `Outcome` |
| const.dfy | `SBusConst` | command codes, attribute bytes, limits, system registers |
| bytes.dfy | `Bytes` | big-endian 16/32-bit packing, register words, flag bit packing |
| text.dfy | `Text` | `%08X` formatting, decimal digits, ASCII decoding, NUL stripping |
| crc16_division.dfy | `Crc16Division` | bitwise polynomial division by 0x1021 and its algebra |
| crc16.dfy | `Crc16` | the 256-entry table and both classes' table-driven CRC loops |
| crc16_table.dfy | `Crc16Table` | the table checked against the polynomial; the table CRC equals the bitwise CRC |
| ether_sbus.dfy | `EtherSBus` | the Ether-S-Bus engine and its datagram queue |
| generic_sbus.dfy | `GenericSBus` | the generic engine |
| profibus.dfy | `Profibus` | the Profi-S-Bus framing and connection guard |
| coordinator.dfy | `Coordinator` | the polling coordinator |

Code that changes state is modelled as classes with `modifies` clauses:

- the engines' counters;
- the datagram queue;
- the Profibus reader and writer;
- the coordinator's health and cache.

Every method is proved against a pure function of the inputs and the old
state. The network is a parameter:

- **Ether-S-Bus**: the datagrams that arrive after the send and before the
  deadline (`arrivals`, empty meaning a timeout).
- **Generic engine**: the reply of the transport.
- **Profibus**: what the gateway sends back (`None` for a timeout).
- **Coordinator**: the outcome of each protocol call (`Call`).

## Model

| member | source | states |
|---|---|---|
| `Bytes.DecodeU16BeIff` | custom_components/sbus/sbus_protocol.py:450 | a two-byte big-endian field decodes to `n` exactly when it is the encoding of `n` |
| `Bytes.U32BeRoundTrip` | custom_components/sbus/sbus_protocol.py:568-572 | unpacking `!I` after packing `!I` gives the register value back |
| `Bytes.DecodeU32BeRoundTrip` | custom_components/sbus/sbus_protocol.py:444 | packing the decoded length field gives the four bytes back |
| `Bytes.WordsAt` | custom_components/sbus/sbus_protocol.py:568-572 | register `i` is the big-endian value of bytes `4i..4i+3`, in address order |
| `Bytes.WordsOfEncodeWords` | custom_components/sbus/sbus_protocol.py:568-572 | decoding the wire form of a register list gives the list back |
| `Bytes.EncodeWordsOfWords` | custom_components/sbus/sbus_protocol_base.py:497-502 | every byte string of whole words is the wire form of its decoded registers |
| `Bytes.FlagBits` | custom_components/sbus/sbus_protocol.py:647-654 | the flag list has one entry per requested flag, but never more than eight per payload byte |
| `Bytes.BitOfPackByte` | custom_components/sbus/sbus_protocol.py:652 | bit `i` of a packed byte is flag `i` |
| `Bytes.PackFlagsAt` | custom_components/sbus/sbus_protocol.py:647-654 | flag `i` is bit `i mod 8` of byte `i div 8` |
| `Bytes.FlagBitsOfPackFlags` | custom_components/sbus/sbus_protocol.py:647-654 | unpacking flags the device packed LSB first gives the flags back |
| `Text.ParseHexDigits` | custom_components/sbus/sbus_protocol.py:722 | `n` upper-case hex digits of a value below 16^n read back as the value |
| `Text.Hex8RoundTrip` | custom_components/sbus/sbus_protocol.py:722 | `%08X` of a 32-bit register is 8 characters that read back as the register |
| `Text.DecimalRoundTrip` | custom_components/sbus/sbus_protocol_base.py:678-682 | decimal digits of `n` read back as `n`; a leading `0` only for zero |
| `Text.DecimalHasNoDot` | custom_components/sbus/sbus_protocol_base.py:682 | a decimal field contains no dot |
| `Text.SplitAtDotJoin` | custom_components/sbus/sbus_protocol_base.py:682 | a dot-free field joined by a dot splits back at that dot |
| `Text.AsciiStrict` | custom_components/sbus/sbus_protocol.py:711 | strict decoding succeeds exactly when every byte is below 0x80; otherwise UnicodeError; characters equal the bytes |
| `Text.AsciiIgnore` | custom_components/sbus/sbus_protocol_base.py:628 | decoding that ignores errors keeps only characters below 0x80 |
| `Text.AsciiIgnoreAgrees` | custom_components/sbus/sbus_protocol_base.py:628 | on all-ASCII input, ignoring errors and strict decoding agree |
| `Text.AsciiIgnoreByte` | custom_components/sbus/sbus_protocol_base.py:628 | a single byte decodes to its own character below 0x80 and to nothing otherwise |
| `Text.AsciiIgnoreAppend` | custom_components/sbus/sbus_protocol_base.py:628 | decoding a concatenation gives the concatenation of the decodings; with the byte rule this fixes the result for every input |
| `Text.StripLeadingNul` | custom_components/sbus/sbus_protocol.py:711 | the input is a run of NULs followed by the result, which does not start with NUL |
| `Text.StripTrailingNul` | custom_components/sbus/sbus_protocol.py:711 | the input is the result followed by a run of NULs; the result does not end with NUL |
| `Text.StripNulFrames` | custom_components/sbus/sbus_protocol.py:711 | `strip("\x00")` removes NUL runs at both ends, keeps the middle and leaves no NUL at either end |
| `Crc16Division.ShiftLinear` | custom_components/sbus/sbus_protocol.py:354-368 | polynomial division steps are linear over XOR |
| `Crc16Division.Shift8Low` | custom_components/sbus/sbus_protocol.py:354-368 | a value in the low byte is only shifted by eight division steps |
| `Crc16Division.ByteStep` | custom_components/sbus/sbus_protocol.py:363-367 | shifting the register up a byte and XORing in the division of (top byte XOR input) divides the register with the input XORed into its top |
| `Crc16.CalculateCrc` | custom_components/sbus/sbus_protocol.py:354-368 | the loop computes the CRC of the whole input, byte by byte from 0x0000 |
| `Crc16.CalculateCrcBase` | custom_components/sbus/sbus_protocol_base.py:364-385 | the generic class's loop computes its CRC of the whole input |
| `Crc16.UpdateCrcAgree` | custom_components/sbus/sbus_protocol_base.py:381-383 | masking before or after the XOR gives the same register, since every table entry fits 16 bits |
| `Crc16.CrcAgree` | custom_components/sbus/sbus_protocol_base.py:364-385 | the two classes' CRCs agree on every input |
| `Crc16.CrcOfEmpty` | custom_components/sbus/sbus_protocol.py:362 | the CRC of no bytes is 0x0000 |
| `Crc16Table.TableMatchesPolynomial` | custom_components/sbus/sbus_protocol.py:56-313 | every table entry `i` is `i << 8` divided MSB first eight times by 0x1021 |
| `Crc16Table.UpdateCrcIsBitwise` | custom_components/sbus/sbus_protocol.py:363-367 | one table step equals eight bitwise division steps with the byte XORed into the top |
| `Crc16Table.CrcIsBitwise` | custom_components/sbus/sbus_protocol.py:354-368 | both table-driven CRCs equal the bitwise CRC-16 (polynomial 0x1021, init 0, no reflection, no final XOR) |
| `EtherSBus.Telegram` | custom_components/sbus/sbus_protocol.py:397-422 | the build fails with struct.error exactly when sequence, attribute, station or command does not fit a byte; otherwise the telegram is 13 + payload bytes long |
| `EtherSBus.TelegramLayout` | custom_components/sbus/sbus_protocol.py:397-422 | the length field equals the telegram's length; 0x01, 0, 0 follow; then sequence, attribute, station, command, the payload, and the big-endian CRC of all bytes before it |
| `EtherSBus.ValidateResponse` | custom_components/sbus/sbus_protocol.py:424-483 | the checks run in order (size, length field, CRC, sequence byte, attribute byte) and the first that fails gives its own error; acceptance implies all five hold and returns `response[11:-2]` |
| `EtherSBus.TelegramRoundTrip` | custom_components/sbus/sbus_protocol.py:380-483 | a response or ACK telegram validates against its own sequence and yields its payload |
| `EtherSBus.RequestEchoRejected` | custom_components/sbus/sbus_protocol.py:468-470 | a telegram carrying the request attribute is rejected as an invalid attribute |
| `EtherSBus.CrcTamperDetected` | custom_components/sbus/sbus_protocol.py:450-457 | replacing the CRC trailer of a well-formed telegram always gives a CRC error |
| `EtherSBus.NextSequence` | custom_components/sbus/sbus_protocol.py:370-378 | the counter steps by one and wraps from 0xFFFF to 0 |
| `EtherSBus.AdvanceSteps` | custom_components/sbus/sbus_protocol.py:370-378 | `k` steps of the counter compose additively modulo 0x10000 |
| `EtherSBus.Received` | custom_components/sbus/sbus_protocol.py:510-524 | a timeout is reported exactly when no datagram arrives |
| `EtherSBus.RegistersOf` | custom_components/sbus/sbus_protocol.py:562-572 | registers are returned exactly when the payload holds four bytes per register, and they are its big-endian words; an exchange error passes through unchanged; a payload of the wrong size is the unexpected-length protocol error |
| `EtherSBus.Acknowledged` | custom_components/sbus/sbus_protocol.py:583-613 | a write succeeds exactly when the exchange does |
| `EtherSBus.ReadRegistersOutcome` | custom_components/sbus/sbus_protocol.py:554-572 | registers are returned only after a telegram was sent, and then `count` of them |
| `EtherSBus.UnpackRegisters` | custom_components/sbus/sbus_protocol.py:568-572 | the loop decodes the payload's big-endian words in order |
| `EtherSBus.UnpackFlags` | custom_components/sbus/sbus_protocol.py:647-654 | the loop returns flag bits LSB first, stopping at `count` |
| `EtherSBus.DeviceInfoOfProperties` | custom_components/sbus/sbus_protocol.py:699-729 | identification fails with a Unicode error exactly when a product byte is not ASCII; the serial is 16 hex digits that read back as the two registers; the product type is at most 16 characters with no NUL at either end |
| `EtherSBus.DatagramQueue.constructor` | custom_components/sbus/sbus_protocol.py:735-738 | the queue starts empty |
| `EtherSBus.DatagramQueue.DatagramReceived` | custom_components/sbus/sbus_protocol.py:744-747 | a datagram is appended at the back |
| `EtherSBus.DatagramQueue.GetResponse` | custom_components/sbus/sbus_protocol.py:753-755 | the front datagram is taken, or none when the queue is empty |
| `EtherSBus.DatagramQueue.ClearResponse` | custom_components/sbus/sbus_protocol.py:757-763 | the queue is emptied |
| `EtherSBus.EtherSBusProtocol.constructor` | custom_components/sbus/sbus_protocol.py:316-335 | sequence 0 and no endpoint |
| `EtherSBus.EtherSBusProtocol.Connect` | custom_components/sbus/sbus_protocol.py:337-344 | success gives a fresh empty endpoint; failure raises and keeps the old one; the counter is untouched |
| `EtherSBus.EtherSBusProtocol.Disconnect` | custom_components/sbus/sbus_protocol.py:346-352 | the endpoint is dropped; the counter is untouched |
| `EtherSBus.EtherSBusProtocol.GetNextSequence` | custom_components/sbus/sbus_protocol.py:370-378 | stores and returns the next counter value |
| `EtherSBus.EtherSBusProtocol.BuildTelegram` | custom_components/sbus/sbus_protocol.py:380-422 | draws the next sequence (even when packing then fails) and returns the telegram for it |
| `EtherSBus.EtherSBusProtocol.SendAndReceive` | custom_components/sbus/sbus_protocol.py:485-524 | without an endpoint it fails as not connected and sends nothing; otherwise it sends the telegram and validates the first arrival |
| `EtherSBus.EtherSBusProtocol.Transact` | custom_components/sbus/sbus_protocol.py:557-559 | an operation's exchange draws two sequence numbers, sends with the second, expects the first, and leaves the later arrivals queued |
| `EtherSBus.EtherSBusProtocol.ReadRegisters` | custom_components/sbus/sbus_protocol.py:526-581 | out-of-range start or count raises ValueError before the counter moves; otherwise the result of the exchange and decode |
| `EtherSBus.EtherSBusProtocol.WriteRegister` | custom_components/sbus/sbus_protocol.py:583-613 | out-of-range address or value raises ValueError before the counter moves; otherwise sends `!HI` and acknowledges |
| `EtherSBus.EtherSBusProtocol.ReadFlags` | custom_components/sbus/sbus_protocol.py:615-654 | negative start or count below 1 raises ValueError; over 16 bits fails packing; otherwise returns the flag bits |
| `EtherSBus.EtherSBusProtocol.WriteFlag` | custom_components/sbus/sbus_protocol.py:656-680 | a negative address raises ValueError, over 16 bits fails packing, otherwise sends `!HB` 1 or 0 |
| `EtherSBus.EtherSBusProtocol.GetDeviceInfo` | custom_components/sbus/sbus_protocol.py:682-729 | four register reads in order, each stepping the counter twice, with the product type decoded as strict ASCII right after its read; with no handler, the first failing read ends the call after exactly that many reads with its own error, a non-ASCII product type ends it after two reads with UnicodeError, and only four good reads of an ASCII product type give the identification assembled from their words |
| `EtherSBus.EchoedSequenceRejected` | custom_components/sbus/sbus_protocol.py:557-559 | as written, a device that echoes the telegram's sequence number is always rejected |
| `EtherSBus.EchoedSequenceAcceptedWhenMatched` | custom_components/sbus/sbus_protocol.py:397 | expecting the sequence the telegram carries accepts the echoed reply |
| `EtherSBus.SequenceFieldOverflows` | custom_components/sbus/sbus_protocol.py:400-407 | as written, a counter of 256 or more fails packing; from a fresh engine the 128th operation is the first to fail |
| `EtherSBus.WrappedSequenceAlwaysFits` | custom_components/sbus/sbus_protocol.py:400-407 | the counter taken modulo 256 always packs |
| `GenericSBus.Frame` | custom_components/sbus/sbus_protocol_base.py:387-427 | the frame fails with struct.error exactly when station, command, address or count does not fit; otherwise it is 10 + data bytes long |
| `GenericSBus.FrameLayout` | custom_components/sbus/sbus_protocol_base.py:406-427 | counter, station, attribute and command, then the address and count big-endian, the data, and the CRC of all bytes before it |
| `GenericSBus.NextCounter` | custom_components/sbus/sbus_protocol_base.py:406 | the counter steps by one and wraps from 255 to 0 |
| `GenericSBus.CounterAfterIsModular` | custom_components/sbus/sbus_protocol_base.py:406 | `k` steps of the counter are `(c + k) mod 256` |
| `GenericSBus.ValidateTelegram` | custom_components/sbus/sbus_protocol_base.py:429-457 | the checks run in order (size, CRC, attribute byte) and the first that fails gives its own error; passing implies all three hold |
| `GenericSBus.FrameRoundTrip` | custom_components/sbus/sbus_protocol_base.py:406-457 | a response or ACK frame of 12 bytes or more passes, and its data is what it was built with |
| `GenericSBus.RequestEchoRejected` | custom_components/sbus/sbus_protocol_base.py:453-457 | a request frame is rejected as an invalid attribute |
| `GenericSBus.CrcTamperDetected` | custom_components/sbus/sbus_protocol_base.py:445-451 | replacing the CRC trailer always gives a CRC error |
| `GenericSBus.ResponseData` | custom_components/sbus/sbus_protocol_base.py:494 | the data is the response without its 8 header and 2 CRC bytes |
| `GenericSBus.Checked` | custom_components/sbus/sbus_protocol_base.py:352-362 | a reply is handed on only when it validates; transport errors pass through |
| `GenericSBus.RegistersOf` | custom_components/sbus/sbus_protocol_base.py:494-502 | registers decode exactly when there are four bytes per register, and they are the leading words; otherwise struct.error |
| `GenericSBus.UnpackRegisters` | custom_components/sbus/sbus_protocol_base.py:497-502 | the loop decodes the leading words, or fails like `struct.unpack` |
| `GenericSBus.UnpackFlags` | custom_components/sbus/sbus_protocol_base.py:563-571 | the loop returns flag bits LSB first, stopping at `count` |
| `GenericSBus.Acknowledged` | custom_components/sbus/sbus_protocol_base.py:504-534 | a write succeeds exactly when the reply validates |
| `GenericSBus.ReadRegistersResult` | custom_components/sbus/sbus_protocol_base.py:489-502 | a successful read returns `count` registers |
| `GenericSBus.ReadRegistersOutcome` | custom_components/sbus/sbus_protocol_base.py:459-502 | a station that does not fit a byte fails packing and sends nothing; otherwise the validated reply is decoded |
| `GenericSBus.FormatVersionRoundTrip` | custom_components/sbus/sbus_protocol_base.py:665-682 | a non-zero version formats as `major.minor.patch` that reads back as its low 24 bits |
| `GenericSBus.ByteFields` | custom_components/sbus/sbus_protocol_base.py:679-681 | the three byte fields recombine to the low 24 bits |
| `GenericSBus.DeviceInfoOfProperties` | custom_components/sbus/sbus_protocol_base.py:614-651 | the product type is never empty; the serial is 16 hex digits reading back as the registers; the version strings read back as the registers' low 24 bits |
| `GenericSBus.FallbackOnlyOnFailure` | custom_components/sbus/sbus_protocol_base.py:612-663 | the fallback identity is returned exactly when one of the four reads fails |
| `GenericSBus.SBusProtocolBase.constructor` | custom_components/sbus/sbus_protocol_base.py:324-335 | counter 0 |
| `GenericSBus.SBusProtocolBase.BuildTelegram` | custom_components/sbus/sbus_protocol_base.py:387-427 | advances the counter modulo 256 (even when packing fails) and builds the request frame with it |
| `GenericSBus.SBusProtocolBase.ReadRegisters` | custom_components/sbus/sbus_protocol_base.py:459-502 | an out-of-range address or count raises ValueError before the counter moves; otherwise the outcome of the exchange |
| `GenericSBus.SBusProtocolBase.WriteRegister` | custom_components/sbus/sbus_protocol_base.py:504-534 | an out-of-range address or value raises ValueError before the counter moves; otherwise sends the value and acknowledges |
| `GenericSBus.SBusProtocolBase.ReadFlags` | custom_components/sbus/sbus_protocol_base.py:536-572 | no range check: packing failures raise struct.error; otherwise the validated reply's flag bits |
| `GenericSBus.SBusProtocolBase.WriteFlag` | custom_components/sbus/sbus_protocol_base.py:574-596 | sends count 1 and the byte 1 or 0; succeeds exactly when the reply validates |
| `GenericSBus.SBusProtocolBase.GetDeviceInfo` | custom_components/sbus/sbus_protocol_base.py:598-663 | the reads stop at the first that fails, which fixes how many are attempted, and the counter advances once per read attempted; the identity is assembled from the four replies or is the fallback |
| `GenericSBus.CounterAlwaysFits` | custom_components/sbus/sbus_protocol_base.py:406-415 | the 8-bit counter never makes packing fail |
| `Profibus.Wrap` | custom_components/sbus/profi_sbus.py:132-147 | the header is the gateway address and the length; ValueError exactly when either does not fit a byte |
| `Profibus.Unwrap` | custom_components/sbus/profi_sbus.py:149-165 | more than two bytes lose the two-byte header; shorter input is returned unchanged |
| `Profibus.ReadAtMost` | custom_components/sbus/profi_sbus.py:116-119 | a read returns a prefix of at most 1024 bytes |
| `Profibus.UnwrapWrap` | custom_components/sbus/profi_sbus.py:132-165 | unwrapping a wrapped non-empty telegram gives it back |
| `Profibus.UnwrapWrapEmpty` | custom_components/sbus/profi_sbus.py:132-165 | an empty telegram comes back as its bare header |
| `Profibus.GatewayReplyDelivered` | custom_components/sbus/profi_sbus.py:88-130 | a valid response behind a two-byte header reaches the generic engine intact |
| `Profibus.ProfibusLink.constructor` | custom_components/sbus/profi_sbus.py:29-52 | no reader and no writer |
| `Profibus.ProfibusLink.Connect` | custom_components/sbus/profi_sbus.py:54-71 | success holds both halves; failure raises and changes nothing |
| `Profibus.ProfibusLink.Disconnect` | custom_components/sbus/profi_sbus.py:73-86 | only a held writer is closed, and then both halves are dropped |
| `Profibus.ProfibusLink.SendAndReceive` | custom_components/sbus/profi_sbus.py:88-130 | without both halves it times out and writes nothing; an unwrappable telegram raises ValueError; otherwise the unwrapped first read |
| `Coordinator.ErrorsStayBounded` | custom_components/sbus/coordinator.py:57-129 | the error count never passes the reconnect threshold |
| `Coordinator.FailedReconnect` | custom_components/sbus/coordinator.py:69-71 | a failed reconnect fails the poll, marks the link down, leaves the count and forces another reconnect |
| `Coordinator.TimeoutCountsOnce` | custom_components/sbus/coordinator.py:110-119 | a timeout fails the poll and adds exactly one error; the flags are not read after a register timeout |
| `Coordinator.ProtocolErrorEmptiesOneBucket` | custom_components/sbus/coordinator.py:83-108 | a protocol error in one read empties only that bucket; the poll succeeds and resets the count |
| `Coordinator.ThreeTimeoutsForceReconnect` | custom_components/sbus/coordinator.py:25 | after three consecutive timeouts, and not before, the next poll reconnects |
| `Coordinator.FillBucket` | custom_components/sbus/coordinator.py:85-86 | the bucket maps exactly the indices of the read to its values |
| `Coordinator.SBusDataUpdateCoordinator.constructor` | custom_components/sbus/coordinator.py:52-55 | disconnected, no errors, nothing cached |
| `Coordinator.SBusDataUpdateCoordinator.Tick` | custom_components/sbus/coordinator.py:57-157 | a poll's new health and result are those of the poll specification; a successful reconnect drops the cached device information |
| `Coordinator.SBusDataUpdateCoordinator.GetDeviceInfo` | custom_components/sbus/coordinator.py:159-168 | the protocol is asked only while nothing is cached; a success is cached; a failure propagates |
| `Coordinator.SBusDataUpdateCoordinator.Shutdown` | custom_components/sbus/coordinator.py:170-177 | the link is marked down whether or not the disconnect fails |

## Left out

- The asyncio machinery is not modelled: the locks, `wait_for` deadlines, sleeps and socket calls. The network is replaced by parameters, as described above.
- Logging is not modelled: no log message affects state.
- The UDP, TCP and serial transports in ether_sbus.py and serial_sbus.py are not part of this model. The generic engine's `_send_and_receive` is abstract in its class, so its reply is a parameter.
- The Profibus driver is not composed with the generic engine, because the model has no subclassing. `Profibus.GatewayReplyDelivered` states what the composition passes on.
- The coordinator imports its base protocol class from a module that does not define it, and the two protocol modules declare separate exception classes. Which exceptions count as a timeout or a protocol failure therefore depends on the engine behind the coordinator. The model takes that classification as input (`Call`).
- The coordinator's outer protocol-error handler (coordinator.py:120-129) cannot be reached: the inner handlers already catch every protocol error of the two reads. The model has no path for it.
- Timers and counters stay empty, as in the source.
- Home Assistant's `UpdateFailed` is a result value of the poll, not an exception.
- `EtherSBus.EtherSBusProtocol.GetDeviceInfo`: the number of reads attempted is a ghost out-parameter.
- `GenericSBus.SBusProtocolBase.GetDeviceInfo`: the number of reads attempted is a ghost out-parameter.
- `Coordinator.SBusDataUpdateCoordinator.GetDeviceInfo`: the device information is an opaque type parameter. Its contents are modelled in the two engines.
- `Profibus.ProfibusLink.SendAndReceive`: the single 1024-byte read stands for whatever one `read` returns. Replies split across several reads are not modelled.
- Python's arbitrary-width integers are unbounded here too. Where the source packs a value into a fixed field, the packing's failure is modelled as `StructError`.

## Findings

| source | as written | input that shows it | evidently intended | confidence | as-written member | corrected member |
|---|---|---|---|---|---|---|
| custom_components/sbus/sbus_protocol.py:557-559 | each operation draws a sequence number, then `_build_telegram` draws another; the reply is expected to carry the first | any operation against a device that echoes the telegram's sequence number: a fresh engine sends 2 and expects 1 | expect the sequence number the telegram carries | not executed | `EtherSBus.EchoedSequenceRejected` | `EtherSBus.EchoedSequenceAcceptedWhenMatched` |
| custom_components/sbus/sbus_protocol.py:397-407 | the 16-bit sequence counter is packed into a one-byte field (`!B`) | the 128th operation of a fresh engine: sequence 256 makes `struct.pack` fail | wrap the counter into the byte field (modulo 256) | not executed | `EtherSBus.SequenceFieldOverflows` | `EtherSBus.WrappedSequenceAlwaysFits` |

The engine model keeps both behaviours as written, because it models the
code. The corrected definitions sit beside it, each with its property
proved.
