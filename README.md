# Robot dev kit: CAN gateway, IMU decoder and frontend state, in Dafny

This project models the core of a desktop robot development kit. It has a Rust backend and a React frontend.

The backend talks to motors through a CAN-over-Ethernet gateway. Each CAN frame travels over UDP as a 13-byte gateway frame:
- a frame-info byte;
- a big-endian 32-bit id;
- eight data bytes.

The backend also reads an IMU over a serial line, using the HiPNUC binary protocol.

The frontend keeps the decoded data in two stores. It takes in backend events through two hooks that coalesce fast feedback to one push per animation frame. Three motor panels format and drive what the stores hold.

The model follows the program file by file. Pure code becomes functions and lemmas. Code that changes state becomes classes and methods proved against those functions.

| module (file) | models | form |
|---|---|---|
| `MotorProtocol` (motor_protocol.dfy) | `src-tauri/src/motor_protocol.rs`: the 13-byte frame, the standard and 29-bit extended ids, feedback decoding, the fault table, MIT and private command layouts, the parameter tables and the read response | functions and lemmas |
| `Gateway` (gateway.dfy) | `src-tauri/src/udp.rs`: splitting a datagram into frames, routing each frame to events, `udp_send_batch`, `udp_send_raw`, `get_param_table` | functions, lemmas, and methods for the two loops |
| `Hipnuc` (hipnuc.dfy) | `src-tauri/src/protocol.rs`: CRC-16, HI91 parsing, and the `HipnucDecoder` state machine over its 512-byte buffer | pure `Step`/`Feed` specification plus a class over an `array` |
| `MotorStore`, `ImuStore` | `src/stores/motor-store.ts`, `src/stores/imu-store.ts` | classes whose methods replace fields |
| `Coalescer`, `MotorIngest`, `ImuIngest` | `src/hooks/use-motor-data.ts`, `src/hooks/use-imu-data.ts`: the single pending slot, the tick, the one-second rate meter, teardown | pure slot functions, plus classes for the hooks |
| `MotorToolbar` | `handleScan` and `handleSelectMotor` of `MotorToolbar.tsx` | functions for the merge and sort, a class for the handlers |
| `ParamsPanel` | `formatValue`, `valueColor`, `writeParam`, `readAllParams` and "Set CAN ID" of `MotorParamsPanel.tsx` | functions, plus a class for the effectful handlers |
| `FrameLogView` | `formatHex`, `formatId` and `buildRawFrame` of `CanFrameLog.tsx` | functions, plus a method for the padding loop |
| `TextFormat`, `JsNumber`, `Bounded`, `Wrappers` | the library behaviour the core relies on, listed below | shared helpers |

The shared helpers cover:
- Rust's `{:02X}` and `{}` formatting, `split_whitespace` and `u8::from_str_radix(_, 16)`;
- JavaScript's `toString(16)`, `padStart`, `parseFloat` and `parseInt`;
- the capped append that the stores perform with `splice`.

Representation choices:
- Bytes and ids are bit-vectors (`bv8`, `bv16`, `bv32`). Every Rust `as u8`/`as u16` truncation is written as an explicit mask.
- JavaScript numbers are `int`.
- Clock readings (`now_ms()`, `Date.now()`) are parameters.
- Socket, `invoke` and listener outcomes are parameters, and their calls are recorded in a call log.

## Model

| member | source | states |
|---|---|---|
| MotorProtocol.BytesBE16 | src-tauri/src/motor_protocol.rs:41-42 | the two id bytes of a standard frame, high byte first, read back big-endian to the 16-bit id |
| MotorProtocol.BytesBE32 | src-tauri/src/motor_protocol.rs:48-59 | the four id bytes of an extended frame, most significant first, read back big-endian to the id |
| MotorProtocol.BytesLE32 | src-tauri/src/motor_protocol.rs:376-384 | `to_le_bytes` gives four bytes that read back little-endian to the value |
| MotorProtocol.BE32Injective | src-tauri/src/motor_protocol.rs:62-71 | the id that `parse_can_frame` reads from bytes 1-4 loses nothing: re-serialising it gives the same four bytes |
| MotorProtocol.LE32Injective | src-tauri/src/motor_protocol.rs:532-534 | the little-endian word of four value bytes re-serialises to those bytes |
| MotorProtocol.ParseCanFrame | src-tauri/src/motor_protocol.rs:61-70 | parsing loses nothing: the frame-info byte, the id's big-endian bytes and the data reassemble the 13-byte frame |
| MotorProtocol.BuildCanFrame | src-tauri/src/motor_protocol.rs:34-45 | a built standard frame has zero bytes 1-2, is a standard data frame, and parses back to frame info 0x08, the 16-bit id and the data |
| MotorProtocol.BuildExtCanFrame | src-tauri/src/motor_protocol.rs:48-59 | a built extended frame is an extended data frame and parses back to frame info 0x88, the 32-bit id and the data |
| MotorProtocol.ParseThenBuildExt | src-tauri/src/motor_protocol.rs:48-71 | the other direction: any frame with frame info 0x88 is rebuilt exactly from its parsed id and data |
| MotorProtocol.ParseThenBuildStd | src-tauri/src/motor_protocol.rs:34-71 | any frame with frame info 0x08 and zero bytes 1-2 is rebuilt exactly from its parsed id and data |
| MotorProtocol.IsStandardDataFrame | src-tauri/src/motor_protocol.rs:74-76 | a standard data frame is exactly a frame-info byte below 0x40 (the extended and remote bits both clear) |
| MotorProtocol.IsExtendedDataFrame | src-tauri/src/motor_protocol.rs:79-81 | an extended data frame is exactly a frame-info byte in 0x80..0xBF |
| MotorProtocol.FrameKindsDisjoint | src-tauri/src/motor_protocol.rs:74-81 | no frame-info byte is both kinds, and one with bit 6 (remote) set is neither |
| MotorProtocol.MakeCanId | src-tauri/src/motor_protocol.rs:84-86 | the MIT id carries the mode in its high byte and the motor id in its low byte, both recoverable |
| MotorProtocol.ParseExtCanId | src-tauri/src/motor_protocol.rs:104-109 | the parsed comm type is always below 32 (five bits) |
| MotorProtocol.MakeExtCanId | src-tauri/src/motor_protocol.rs:97-101 | the built id fits in 29 bits and parses back to (comm type mod 32, data area 2, target) |
| MotorProtocol.ExtIdRebuild | src-tauri/src/motor_protocol.rs:97-109 | every 29-bit id is the one built from its own parsed fields |
| MotorProtocol.DecodeFeedback | src-tauri/src/motor_protocol.rs:123-128 | the motor id is data byte 0; the velocity and torque fields are 12-bit quantities |
| MotorProtocol.DecodeFeedbackRoundTrip | src-tauri/src/motor_protocol.rs:123-128 | data laid out in the MIT feedback format decodes back to every field, given 12-bit velocity and torque |
| MotorProtocol.DecodePrivateFeedback | src-tauri/src/motor_protocol.rs:164-172 | mode (< 4), fault bits (< 64) and motor id reassemble data area 2 exactly; the four 16-bit fields re-serialise to the eight data bytes |
| MotorProtocol.FaultNames | src-tauri/src/motor_protocol.rs:207-212 | the filter loop of `decode_faults` lists at most one name per table entry; which names and in what order is stated by FaultNamesMembers and FaultNamesOrdered |
| MotorProtocol.FaultNamesMembers | src-tauri/src/motor_protocol.rs:207-212 | the filter loop lists a name iff some table entry with that name has its bit set in the word |
| MotorProtocol.FaultNamesOrdered | src-tauri/src/motor_protocol.rs:207-212 | the listed names keep table order (a subsequence of the table's names) |
| MotorProtocol.DecodeFaults | src-tauri/src/motor_protocol.rs:193-217 | `raw` is the word; the faults are exactly the table entries whose bit is set, in table order |
| MotorProtocol.FaultNamesMasked | src-tauri/src/motor_protocol.rs:207-212 | clearing bits that no table entry names leaves the listed names unchanged |
| MotorProtocol.FaultsIgnoreUnlistedBits | src-tauri/src/motor_protocol.rs:194-212 | bits 6, 10-13, 15 and 17-31 never change the fault list |
| MotorProtocol.MaskCoversTable | src-tauri/src/motor_protocol.rs:194-206 | every bit in the fault table is below 32 and inside the mask of named bits |
| MotorProtocol.MitSpecialData | src-tauri/src/motor_protocol.rs:221-279 | every special MIT command starts with six 0xFF bytes |
| MotorProtocol.MitSpecialCollisions | src-tauri/src/motor_protocol.rs:221-279 | two special commands (other than change-master-id) share their bytes only when they are equal, or for enable vs set-mode 0xFF and stop vs change-protocol 0xFF |
| MotorProtocol.CmdMitParams | src-tauri/src/motor_protocol.rs:239-248 | unpacking the packed bytes with the 16/12/12/12/12-bit slots recovers all five quantised fields |
| MotorProtocol.UnpackMitParams | src-tauri/src/motor_protocol.rs:608-613 | the test's unpacking reads the 16-bit position and four values that each fit in 12 bits |
| MotorProtocol.MitParamsRepack | src-tauri/src/motor_protocol.rs:239-248 | the packing loses nothing in the other direction too: any 8 data bytes, unpacked and packed again, come back unchanged |
| MotorProtocol.PrivCommand | src-tauri/src/motor_protocol.rs:303-441 | every private command has its request's comm type, the motor as target, and the master id in the high byte of data area 2 (set-can-id: the new id there and the master id in the low byte) |
| MotorProtocol.ParamReadLayout | src-tauri/src/motor_protocol.rs:346-353 | a parameter read carries the index little-endian in bytes 0-1 and zeros elsewhere |
| MotorProtocol.WriteValueBytes | src-tauri/src/motor_protocol.rs:357-393 | a write's bytes 4-7 are the little-endian value, zero-extended from its width (1, 2 or 4 bytes) |
| MotorProtocol.ParamWriteLayout | src-tauri/src/motor_protocol.rs:355-393 | a parameter write carries the index little-endian in bytes 0-1, zeros in bytes 2-3 and the zero-extended value little-endian in bytes 4-7 |
| MotorProtocol.DecodeParamReadResponse | src-tauri/src/motor_protocol.rs:529-543 | success iff bits 8-15 of data area 2 are clear; the value bytes are data 4-7 and the value word is their little-endian reading; the index is little-endian bytes 0-1 |
| MotorProtocol.ParamWriteReadsBack | src-tauri/src/motor_protocol.rs:346-393 | a write command's data, read as a response, yields the written index and word |
| Gateway.StandardEvents | src-tauri/src/udp.rs:137-147 | a standard data frame adds at most one event, and never a log entry |
| Gateway.ExtendedEvents | src-tauri/src/udp.rs:147-216 | an extended data frame adds at most two events, and never a log entry |
| Gateway.RouteFrame | src-tauri/src/udp.rs:124-217 | each frame emits one to three events, the first being its rx log entry and no later one a log entry |
| Gateway.IdFieldsInFrame | src-tauri/src/udp.rs:139-150 | the mode test, the id low byte and the parsed extended-id fields, in terms of the frame's bytes 1-4 |
| Gateway.RxLogFirst | src-tauri/src/udp.rs:124-135 | the first event is the rx log with id = bytes 1-4 big-endian, is_extended iff (frame info & 0xC0) == 0x80, the 8 data bytes and the clock reading |
| Gateway.StandardRouting | src-tauri/src/udp.rs:137-147 | a standard data frame emits motor feedback iff id bits 8-10 are zero and its low byte is the master id, and otherwise nothing beyond the log |
| Gateway.RemoteFrameOnlyLogged | src-tauri/src/udp.rs:137-147 | a frame that is neither standard nor extended data (remote bit set) emits only its log entry |
| Gateway.DeviceIdRouting | src-tauri/src/udp.rs:153-168 | comm type 0 emits device info and a scan result, both with motor id = data-area-2 low byte; the device id is 16 upper-case hex digits, two per data byte in order |
| Gateway.ExtendedRoute | src-tauri/src/udp.rs:147-151 | an extended frame's events after the log are those of its parsed id fields and data |
| Gateway.Type2Routing | src-tauri/src/udp.rs:169-191 | comm type 2 with data 00 C4 56 emits only a version event "d3.d4.d5.d6" for the data-area-2 low byte, and otherwise motor feedback followed by private feedback |
| Gateway.SingleEventRouting | src-tauri/src/udp.rs:193-212 | 0x11 emits the decoded parameter read, 0x15 the fault status of little-endian data 0-3, and 0x18 private feedback only |
| Gateway.OtherCommTypesOnlyLogged | src-tauri/src/udp.rs:198-215 | comm type 0x04 and every unlisted type emit only the log entry |
| Gateway.SplitFrames | src-tauri/src/udp.rs:117-123 | a datagram yields exactly `n / 13` frames |
| Gateway.FrameOffset | src-tauri/src/udp.rs:118-122 | frame i is the datagram's bytes 13i .. 13i+13 |
| Gateway.TrailingBytesIgnored | src-tauri/src/udp.rs:117-123 | fewer than 13 trailing bytes after whole frames change nothing |
| Gateway.Received | src-tauri/src/udp.rs:113-116 | `recv` into the 1024-byte buffer keeps at most 1024 bytes: a shorter datagram whole, a longer one cut to its first 1024 |
| Gateway.RecvFrameBound | src-tauri/src/udp.rs:113-118 | one receive yields at most 78 frames, and exactly 78 from a datagram of 1024 bytes or more |
| Gateway.ReceiveDatagram | src-tauri/src/udp.rs:115-135 | for a received datagram (at most 1024 bytes), the receive loop emits exactly the concatenation, in frame order, of each frame's routed events |
| Gateway.CopyFrame | src-tauri/src/udp.rs:120-122 | the copied array is frame i of the split |
| Gateway.LogsConcat | src-tauri/src/udp.rs:124-135 | the log entries of two event runs are those of the first followed by those of the second |
| Gateway.LogsOfFrame | src-tauri/src/udp.rs:124-217 | routing one frame emits exactly one log entry, its rx log |
| Gateway.RxLogs | src-tauri/src/udp.rs:124-135 | one rx log per frame, in frame order |
| Gateway.DatagramLogs | src-tauri/src/udp.rs:117-135 | the log entries of a whole datagram are exactly one rx log per frame, in order |
| Gateway.RouteAllLast | src-tauri/src/udp.rs:119-123 | the events of n frames are the events of the first n-1 followed by those of the last |
| Gateway.ShortDatagramIgnored | src-tauri/src/udp.rs:117-123 | a datagram shorter than 13 bytes emits nothing (the `Ok(_) => {}` arm at line 220) |
| Gateway.FirstBadEntry | src-tauri/src/udp.rs:338-341 | the position of the first batch entry whose data is not 8 bytes long (or the batch length): all earlier entries have 8 bytes |
| Gateway.TxLog | src-tauri/src/udp.rs:347-353 | the "tx" entry of a batch element: its 16-bit id, not extended, its data and the clock reading; SendBatch states which elements get one, and in what order |
| Gateway.Packet | src-tauri/src/udp.rs:337-345 | the frames of the batch appended in order; PacketLength gives its length, 13 bytes per entry, and BatchPacketFrames shows it splits back into the entries as standard frames |
| Gateway.SendBatch | src-tauri/src/udp.rs:329-366 | not connected: nothing sent or logged. Otherwise the entries before the first bad one are logged as tx. A bad entry rejects the batch with nothing sent. A packet over 650 bytes is rejected with nothing sent. Otherwise the packet of built frames is sent, and a send failure is reported |
| Gateway.PacketLength | src-tauri/src/udp.rs:337-359 | the packet is 13 bytes per entry, so it is within 650 bytes iff the batch has at most 50 frames |
| Gateway.SplitFramesSnoc | src-tauri/src/udp.rs:117-123 | splitting a whole-frame prefix followed by one frame gives the prefix's frames and that frame |
| Gateway.BatchPacketFrames | src-tauri/src/udp.rs:337-350 | a batch packet received by the gateway splits back into its entries as standard frames with their ids and data |
| Gateway.IntErrorMessage | src-tauri/src/udp.rs:763-768 | the `Display` text of each `ParseIntError` kind that follows "Invalid hex: "; IntErrorMessagesDistinct shows the text names the kind |
| Gateway.IntErrorMessagesDistinct | src-tauri/src/udp.rs:768 | two parse errors give the same text iff they are the same kind |
| Gateway.SendRaw | src-tauri/src/udp.rs:759-799 | bytes are sent iff connected, the text parses as hex bytes, and exactly 13 result; a log entry and success come iff the send succeeded; its is_extended is bit 7 of byte 0 |
| Gateway.SendRawListing | src-tauri/src/udp.rs:759-799 | the listing of any 13-byte frame is sent as that frame, logged with the id and data of bytes 1-12, and answered "Sent n bytes: [listing]" |
| Gateway.TxRxExtendedAgree | src-tauri/src/udp.rs:124-135 | the raw send's is_extended and the receiver's agree on a frame unless its frame info has both bits 7 and 6 set |
| Gateway.ParamTypeNamesDistinct | src-tauri/src/udp.rs:810-811 | the `{:?}` type names of distinct parameter types differ |
| Gateway.AccessNamesDistinct | src-tauri/src/udp.rs:812 | the `{:?}` access names of distinct access modes differ |
| Gateway.ParamRows | src-tauri/src/udp.rs:804-817 | one row per definition, in order, each holding that definition's index, name, description and default text, and the `{:?}` names of its type and access mode |
| Gateway.GetParamTable | src-tauri/src/udp.rs:802-815 | the rows of the writable parameters chained with the read-only ones; ParamRows states each row's six fields and ParamTableOrder the 33 rows' order |
| Gateway.ParamTableOrder | src-tauri/src/udp.rs:806 | the table has 33 rows: the 22 writable parameters in their order, then the 11 read-only ones |
| Hipnuc.LengthField | src-tauri/src/protocol.rs:178-179 | the payload length field is a 16-bit quantity |
| Hipnuc.Crc16 | src-tauri/src/protocol.rs:22-36 | the byte-wise CRC-16 specification; Crc16Update shows the bitwise loop computes it, Crc16CheckValue pins the variant, Crc16Concat and Crc16Injective give its algebra |
| Hipnuc.Crc16Update | src-tauri/src/protocol.rs:22-36 | the loop of `crc16_update` computes the byte-wise CRC-16 (polynomial 0x1021, initial value 0, no reflection, no final XOR) |
| Hipnuc.CrcByteUpdate | src-tauri/src/protocol.rs:25-33 | the eight shift rounds for one byte compute its CRC step |
| Hipnuc.Crc16Concat | src-tauri/src/protocol.rs:22-36 | the CRC composes over concatenation: the CRC of a+b continues the CRC of a over b |
| Hipnuc.Crc16Empty | src-tauri/src/protocol.rs:22-36 | the CRC of no bytes is the starting value |
| Hipnuc.Crc16CheckValue | src-tauri/src/protocol.rs:20-36 | the CRC of "123456789" is 0x31C3, the published check value of the XMODEM variant of CRC-16 |
| Hipnuc.CrcRoundsInjective | src-tauri/src/protocol.rs:26-32 | the shift-and-xor rounds are one-to-one: different starting values never meet |
| Hipnuc.CrcByteInjective | src-tauri/src/protocol.rs:25-33 | from the same CRC, two different bytes give different CRCs |
| Hipnuc.Crc16Injective | src-tauri/src/protocol.rs:22-36 | the CRC continued over the same data from two different values stays different |
| Hipnuc.SingleByteErrorDetected | src-tauri/src/protocol.rs:22-36 | changing any one byte of the data, wherever it is, changes the CRC |
| Hipnuc.AsI8 | src-tauri/src/protocol.rs:76 | `as i8` is the two's complement reading of the byte, in -128..127 |
| Hipnuc.ParseHi91 | src-tauri/src/protocol.rs:67-118 | a packet comes out iff there are at least 76 bytes starting with tag 0x91; its temperature is byte 3 as a signed byte |
| Hipnuc.ParsePayload | src-tauri/src/protocol.rs:246-266 | the payload yields a packet iff it starts with tag 0x91 and holds 76 bytes, and then it is the HI91 packet |
| Hipnuc.SamplePacketFields | src-tauri/src/protocol.rs:304-361 | the reference HI91 frame of the unit test gives temperature 35 and system time 1840392 |
| Hipnuc.Initial | src-tauri/src/protocol.rs:139-146 | the new decoder satisfies the invariant |
| Hipnuc.ResetState | src-tauri/src/protocol.rs:268-272 | reset returns to WaitSync1 with the invariant, and leaves the buffer as it was |
| Hipnuc.FrameResult | src-tauri/src/protocol.rs:220-244 | a complete frame yields a packet iff the CRC over bytes 0-3 and the payload equals bytes 4-5 little-endian and the payload is a whole HI91 packet, which is then parsed |
| Hipnuc.Step | src-tauri/src/protocol.rs:150-207 | every input byte keeps the invariant (fixed 512-byte buffer, `nbyte` < 6 + payload length <= 512 while reading), so every buffer write is in bounds |
| Hipnuc.Feed | src-tauri/src/protocol.rs:210-218 | feeding a byte sequence keeps the invariant |
| Hipnuc.FeedCons | src-tauri/src/protocol.rs:210-218 | feeding is one step on the first byte, its packet if any, then feeding the rest |
| Hipnuc.Sync1IgnoresNoise | src-tauri/src/protocol.rs:152-159 | in WaitSync1 a byte other than 0x5A changes nothing and yields nothing |
| Hipnuc.Sync2MismatchResets | src-tauri/src/protocol.rs:160-171 | in WaitSync2 any byte other than 0xA5 (another 0x5A included) returns to WaitSync1 with `nbyte` = 0 |
| Hipnuc.HeaderLengthCheck | src-tauri/src/protocol.rs:172-191 | the sixth header byte fixes the payload length from bytes 2-3; a length of 0 or one past the buffer resets, any other starts the payload; nothing is yielded |
| Hipnuc.CompletionResets | src-tauri/src/protocol.rs:193-201 | the last byte of a frame always resets the decoder, valid or not, and yields that frame's result |
| Hipnuc.OutputOnlyIfValid | src-tauri/src/protocol.rs:193-266 | a packet comes out only on a frame's last byte, when the CRC matches and the payload is a whole HI91 packet |
| Hipnuc.FeedConcat | src-tauri/src/protocol.rs:210-218 | feeding a+b is feeding a then b, with the packets of both in order |
| Hipnuc.EncodeFrame | src-tauri/src/protocol.rs:1-8 | the encoded frame is the two sync bytes, the length field, the CRC field and the payload |
| Hipnuc.EncodeFrameCrc | src-tauri/src/protocol.rs:223-230 | an encoded frame's CRC field is the CRC of its first four bytes and its payload |
| Hipnuc.FrameDecodes | src-tauri/src/protocol.rs:150-266 | from WaitSync1, a well-formed frame with matching length field yields exactly the payload's packet (if any) and ends in WaitSync1 |
| Hipnuc.EncodedFrameResult | src-tauri/src/protocol.rs:220-244 | a buffer holding an encoded frame validates and yields the payload's packet |
| Hipnuc.CorruptedFrameRejected | src-tauri/src/protocol.rs:193-244 | a valid frame with any one payload byte changed is dropped: the decoder returns to WaitSync1 and yields nothing |
| Hipnuc.CorruptedFrameCrc | src-tauri/src/protocol.rs:223-232 | such a frame fails the CRC comparison |
| Hipnuc.SampleFrameDecodes | src-tauri/src/protocol.rs:304-361 | the sample frame, fed to a fresh decoder, yields exactly one packet, with temperature 35 and system time 1840392 |
| Hipnuc.SampleCorruptionRejected | src-tauri/src/protocol.rs:386-399 | the sample frame with byte 10 inverted yields no packet |
| Hipnuc.ResyncAfterGarbage | src-tauri/src/protocol.rs:365-382 | the unit test's garbage (a lone 0x5A included) followed by a frame yields just that frame's packet |
| Hipnuc.GarbageIgnored | src-tauri/src/protocol.rs:365-382 | that garbage leaves a waiting decoder waiting and yields nothing |
| Hipnuc.NoiseThenFalseStart | src-tauri/src/protocol.rs:152-171 | bytes without 0x5A, then 0x5A and a byte other than 0xA5, leave the decoder in WaitSync1 with nothing yielded |
| Hipnuc.NoiseIgnored | src-tauri/src/protocol.rs:152-159 | in WaitSync1 a run of bytes without 0x5A changes nothing and yields nothing |
| Hipnuc.HipnucDecoder.constructor | src-tauri/src/protocol.rs:139-146 | a fresh 512-byte zeroed buffer, in the initial state |
| Hipnuc.HipnucDecoder.Reset | src-tauri/src/protocol.rs:268-272 | the fields are those of `ResetState`; the buffer is kept |
| Hipnuc.HipnucDecoder.ValidateAndParse | src-tauri/src/protocol.rs:220-244 | building the CRC input in place and running the CRC loop gives `FrameResult` of the buffer |
| Hipnuc.HipnucDecoder.Input | src-tauri/src/protocol.rs:150-207 | the in-place update of the object is `Step` of its old state, and it returns the same packet |
| Hipnuc.HipnucDecoder.InputHeader | src-tauri/src/protocol.rs:172-191 | the header branch: the buffer write and length check update the object exactly as `Step` does from ReadHeader, and the buffer array stays the same object |
| Hipnuc.HipnucDecoder.InputPayload | src-tauri/src/protocol.rs:192-205 | the payload branch: the buffer write, completion, CRC check and reset update the object exactly as `Step` does from ReadPayload, returning its packet |
| Hipnuc.HipnucDecoder.InputBytes | src-tauri/src/protocol.rs:210-218 | the result is exactly the packets of feeding the bytes in order, and the new state is `Feed`'s |
| Bounded.LastN | src/stores/motor-store.ts:76-79 | the last min(length, k) elements |
| Bounded.PushCapped | src/stores/motor-store.ts:84-91 | appending with a cap keeps the last min(n+1, cap) elements of old + [x], ending with x |
| Bounded.PushAllWindow | src/stores/motor-store.ts:72-81 | any number of capped pushes onto a list within the cap leave the last `cap` elements of everything pushed, in arrival order |
| Bounded.PushAllTrimmed | src/stores/motor-store.ts:84-91 | trimming before appending more gives the same window as trimming once at the end |
| MotorStore.MergeConfig | src/stores/motor-store.ts:63-64 | the shallow merge `{ ...config, ...partial }`; MergeFields and MergeCompose state what it keeps and replaces |
| MotorStore.MergeFields | src/stores/motor-store.ts:63-64 | the shallow merge: present fields override, absent ones are kept; an empty patch changes nothing, a full one replaces the config |
| MotorStore.MergeCompose | src/stores/motor-store.ts:63-64 | two merges in a row are one merge of the combined patch, and merging the same patch twice is idempotent |
| MotorStore.MotorStore.constructor | src/stores/motor-store.ts:54-125 | the initial state, default config 192.168.0.7:20001, motor 127, master 253 |
| MotorStore.MotorStore.SetConfig | src/stores/motor-store.ts:63-64 | only the config changes, to the merge |
| MotorStore.MotorStore.SetConnected | src/stores/motor-store.ts:65 | only `connected` changes, to the given flag |
| MotorStore.MotorStore.SetFps | src/stores/motor-store.ts:71 | only `fps` changes, to the given rate |
| MotorStore.MotorStore.PushFeedback | src/stores/motor-store.ts:72-81 | latest is the sample; history and times get the capped push of sample and time, stay parallel and within 600; no other field changes |
| MotorStore.MotorStore.PushCanLog | src/stores/motor-store.ts:84-91 | only the log changes: appended, oldest dropped beyond 200 |
| MotorStore.MotorStore.ClearCanLog | src/stores/motor-store.ts:92 | only the log changes, to empty |
| MotorStore.MotorStore.SetParamValue | src/stores/motor-store.ts:106-117 | only the entry at the response's index is written (value, raw bytes, success); every other index is unchanged |
| MotorStore.MotorStore.ClearParamValues | src/stores/motor-store.ts:118 | only the values change, to empty |
| MotorStore.MotorStore.SetDeviceInfo | src/stores/motor-store.ts:123 | only deviceMotorId and deviceId change |
| MotorStore.MotorStore.SetFirmwareVersion | src/stores/motor-store.ts:124 | only firmwareVersion changes; the motor id argument is ignored |
| MotorStore.MotorStore.SetFaultStatus | src/stores/motor-store.ts:95 | only faultStatus changes |
| MotorStore.MotorStore.SetPrivateFeedback | src/stores/motor-store.ts:98 | only privateFeedback changes |
| MotorStore.MotorStore.SetUdpWarning | src/stores/motor-store.ts:101 | only udpWarning changes |
| MotorStore.MotorStore.SetParamTable | src/stores/motor-store.ts:104 | only paramTable changes |
| ImuStore.ImuStore.constructor | src/stores/imu-store.ts:40-50 | the initial state: disconnected, baud 115200, everything empty or zero |
| ImuStore.ImuStore.PushData | src/stores/imu-store.ts:56-65 | latest is the sample; history and times get the capped push, stay parallel and within 600; no other field changes |
| ImuStore.ImuStore.IncrementFrameCount | src/stores/imu-store.ts:68-69 | frameCount goes up by exactly 1, nothing else changes |
| ImuStore.ImuStore.SetConnected | src/stores/imu-store.ts:52 | only `connected` changes, to the given flag |
| ImuStore.ImuStore.SetPortName | src/stores/imu-store.ts:53 | only `portName` changes, to the given name |
| ImuStore.ImuStore.SetBaudRate | src/stores/imu-store.ts:54 | only `baudRate` changes, to the given rate |
| ImuStore.ImuStore.SetRecording | src/stores/imu-store.ts:67 | only `recording` changes, to the given flag |
| ImuStore.ImuStore.SetFps | src/stores/imu-store.ts:70 | fps is set and frameCount reset to 0, nothing else changes |
| ImuStore.ImuStore.AddConsoleLine | src/stores/imu-store.ts:72-77 | the line is appended, oldest dropped beyond 200; nothing else changes |
| ImuStore.ImuStore.ClearConsole | src/stores/imu-store.ts:78 | only the console changes, to empty |
| ImuStore.ImuStore.Reset | src/stores/imu-store.ts:80-87 | latest, history, timestamps, frameCount and fps are cleared; connection, port, baud, recording and console are kept |
| Coalescer.Arrive | src/hooks/use-motor-data.ts:23-26 | an event callback: the sample replaces the pending one and the counter goes up; ArrivalsCoalesce and ArrivalCount state what a run of them leaves |
| Coalescer.Drain | src/hooks/use-motor-data.ts:57-61 | a tick hands over the pending sample and empties the slot; BurstDrainsOnce states that a burst is delivered once |
| Coalescer.Publish | src/hooks/use-motor-data.ts:67-70 | the rate interval hands over the arrival count and restarts it; PublishCountsArrivals states what is counted |
| Coalescer.ArrivalsCoalesce | src/hooks/use-motor-data.ts:23-26 | a burst of arrivals leaves only the last one pending and adds its length to the counter |
| Coalescer.BurstDrainsOnce | src/hooks/use-motor-data.ts:57-61 | after a burst, one drain delivers the last arrival and a second drain delivers nothing; the counter keeps the whole burst |
| Coalescer.PublishCountsArrivals | src/hooks/use-motor-data.ts:67-70 | the rate meter publishes arrivals, not drains, and a second publish right after gives 0 |
| Coalescer.ArrivalCount | src/hooks/use-imu-data.ts:18-22 | each arrival adds exactly one to the counter |
| MotorIngest.MotorIngest.constructor | src/hooks/use-motor-data.ts:22-70 | the eight listeners are registered, the slot is empty, the frame and interval are running |
| MotorIngest.MotorIngest.OnFeedback | src/hooks/use-motor-data.ts:23-26 | the slot becomes an arrival of the sample, whatever it held |
| MotorIngest.MotorIngest.OnFrameLog | src/hooks/use-motor-data.ts:28-30 | the entry goes straight into the store's capped log |
| MotorIngest.MotorIngest.OnFaultStatus | src/hooks/use-motor-data.ts:32-34 | straight to the store's fault status |
| MotorIngest.MotorIngest.OnParamRead | src/hooks/use-motor-data.ts:36-38 | straight to the store's value at that index |
| MotorIngest.MotorIngest.OnUdpWarning | src/hooks/use-motor-data.ts:40-42 | straight to the store's warning |
| MotorIngest.MotorIngest.OnDeviceInfo | src/hooks/use-motor-data.ts:44-46 | straight to the store's device identity |
| MotorIngest.MotorIngest.OnVersionInfo | src/hooks/use-motor-data.ts:48-50 | straight to the store's firmware version |
| MotorIngest.MotorIngest.OnPrivateFeedback | src/hooks/use-motor-data.ts:52-54 | straight to the store's private feedback |
| MotorIngest.MotorIngest.Tick | src/hooks/use-motor-data.ts:57-64 | only while a frame is requested (never after teardown): a pending sample is pushed into the store once and the slot emptied; an empty slot leaves the store as it was |
| MotorIngest.MotorIngest.FpsInterval | src/hooks/use-motor-data.ts:67-70 | only while the interval runs (never after teardown): the arrival count becomes the store's fps and restarts from zero |
| MotorIngest.MotorIngest.Teardown | src/hooks/use-motor-data.ts:72-83 | all eight listeners are removed and the frame request and the interval are cancelled |
| ImuIngest.ImuIngest.constructor | src/hooks/use-imu-data.ts:16-39 | the listener is registered, the slot is empty, the frame and interval are running |
| ImuIngest.ImuIngest.OnImuData | src/hooks/use-imu-data.ts:18-22 | the slot becomes an arrival of the sample |
| ImuIngest.ImuIngest.Tick | src/hooks/use-imu-data.ts:25-33 | only while a frame is requested (never after teardown): a pending sample is pushed, the frame count goes up by one and the slot is emptied; an empty slot leaves the store as it was |
| ImuIngest.ImuIngest.FpsInterval | src/hooks/use-imu-data.ts:36-39 | only while the interval runs (never after teardown): the hook's arrival count becomes the store's fps (which resets its frame count) and restarts from zero |
| ImuIngest.ImuIngest.Teardown | src/hooks/use-imu-data.ts:41-45 | the listener is removed and the frame request and the interval are cancelled |
| MotorToolbar.InsertionOrderSet | src/components/motor/MotorToolbar.tsx:50-57 | a `Set` filled by events holds each heard id once |
| MotorToolbar.PrivateEntries | src/components/motor/MotorToolbar.tsx:70-72 | one private entry per private id, in order |
| MotorToolbar.MitEntries | src/components/motor/MotorToolbar.tsx:73-77 | an MIT entry exactly for each MIT id the private scan did not find |
| MotorToolbar.SortById | src/components/motor/MotorToolbar.tsx:78 | the sort gives a list ordered by id that is a permutation of its input |
| MotorToolbar.InsertById | src/components/motor/MotorToolbar.tsx:78 | inserting into an id-ordered list keeps it ordered and adds exactly that element |
| MotorToolbar.SortDistinct | src/components/motor/MotorToolbar.tsx:78 | sorting keeps ids distinct |
| MotorToolbar.CollectedDistinct | src/components/motor/MotorToolbar.tsx:69-77 | the merged list has no id twice |
| MotorToolbar.CollectedMembers | src/components/motor/MotorToolbar.tsx:69-77 | private ids appear tagged private; MIT ids appear tagged mit iff the private scan did not find them |
| MotorToolbar.DiscoveredIncreasing | src/components/motor/MotorToolbar.tsx:69-78 | the discovered list's ids are strictly increasing |
| MotorToolbar.Discovered | src/components/motor/MotorToolbar.tsx:69-78 | the sorted union of the private and MIT results; DiscoveredIncreasing, DiscoveredMembers and DiscoveredFirst state its order, membership and first entry |
| MotorToolbar.DiscoveredMembers | src/components/motor/MotorToolbar.tsx:69-78 | every id heard by the private scan is in the list once, tagged private; an MIT id is in it, tagged mit, exactly when the private scan did not hear it |
| MotorToolbar.DiscoveredFirst | src/components/motor/MotorToolbar.tsx:86-97 | the list is empty iff nothing was heard, and otherwise starts with the smallest id heard |
| MotorToolbar.CollectIds | src/components/motor/MotorToolbar.tsx:52-57 | the listener loop's set is the insertion-order set of the events |
| MotorToolbar.BuildDiscovered | src/components/motor/MotorToolbar.tsx:69-77 | the two push loops build the merged list |
| MotorToolbar.PushPrivate | src/components/motor/MotorToolbar.tsx:70-72 | the first push loop gives one private entry per id in order |
| MotorToolbar.PushMit | src/components/motor/MotorToolbar.tsx:73-77 | the second push loop appends the MIT entries not found privately |
| MotorToolbar.Labels | src/components/motor/MotorToolbar.tsx:90 | one label per entry, in order |
| MotorToolbar.AddCalls | src/components/motor/MotorToolbar.tsx:82-84 | `addMotor` once per entry, in list order |
| MotorToolbar.Toolbar.constructor | src/components/motor/MotorToolbar.tsx:12-16 | the form starts as the store's config, with no error, no result and no scan running |
| MotorToolbar.Toolbar.HandleScan | src/components/motor/MotorToolbar.tsx:45-100 | the listeners are set up, the scan runs, then the listeners are removed and scanning ends even on failure; the sorted list is registered; a non-empty list moves the form's motor id to its first (smallest) entry |
| MotorToolbar.Toolbar.Register | src/components/motor/MotorToolbar.tsx:79-98 | the list is stored and each entry registered in order; the result line is set; a non-empty list selects its first entry, moves the form and backend to it; an empty list leaves the selection unchanged |
| MotorToolbar.Toolbar.HandleSelectMotor | src/components/motor/MotorToolbar.tsx:112-116 | the id becomes active, goes into the form, and the backend's motor id follows it with the form's master id |
| ParamsPanel.FormatValue | src/components/motor/MotorParamsPanel.tsx:85-95 | the dash, "ERR", the four-decimal float, the I16 reading or the unsigned decimal; FormatMissingAndFailed, I16IsTwosComplement, I16WriteReadBack and ShownIntegerRewritable state what is shown |
| ParamsPanel.ValueColor | src/components/motor/MotorParamsPanel.tsx:97-101 | red for a stored failed read, the default colour otherwise; RedIffErr ties it to the "ERR" text |
| ParamsPanel.FormatMissingAndFailed | src/components/motor/MotorParamsPanel.tsx:85-88 | for every type, no stored value shows "—" and a failed read shows "ERR" |
| ParamsPanel.IntStringNotErr | src/components/motor/MotorParamsPanel.tsx:88-94 | no integer reading is shown as "ERR" |
| ParamsPanel.RedIffErr | src/components/motor/MotorParamsPanel.tsx:97-101 | the value is red iff a stored entry exists with success false |
| ParamsPanel.I16IsTwosComplement | src/components/motor/MotorParamsPanel.tsx:90-92 | for a 16-bit stored word, the I16 reading is in -32768..32767 and congruent to it mod 65536 |
| ParamsPanel.I16WriteReadBack | src/components/motor/MotorParamsPanel.tsx:90-92 | an int16 stored as its two's complement word reads back as itself |
| ParamsPanel.I16SignExtendedShown | src/components/motor/MotorParamsPanel.tsx:90-92 | a word sign-extended to 32 bits (0xFFFF8000) is shown as 4294868992, not -32768 |
| ParamsPanel.ShownIntegerRewritable | src/components/motor/MotorParamsPanel.tsx:55-95 | every integer text the panel shows passes the write guard unchanged |
| ParamsPanel.TypeMap | src/components/motor/MotorParamsPanel.tsx:61-64 | the mapped type is always one of u8, u16, u32, i16, f32 |
| ParamsPanel.TypeMapOfTable | src/components/motor/MotorParamsPanel.tsx:61-64 | the table's numeric type names map to lower case and "Str" falls back to "f32" |
| ParamsPanel.WriteLiteral | src/components/motor/MotorParamsPanel.tsx:56-59 | a write happens iff the edit text exists, is non-empty and does not parse as NaN; what is sent is the numeric prefix `parseFloat` reads |
| ParamsPanel.CanIdToSend | src/components/motor/MotorParamsPanel.tsx:436-439 | an id is sent only when it is in 0..127 |
| ParamsPanel.CanIdOfIntString | src/components/motor/MotorParamsPanel.tsx:438-439 | typing an integer sends exactly that id when it is in 0..127 and nothing otherwise |
| ParamsPanel.ReadCommands | src/components/motor/MotorParamsPanel.tsx:44-51 | one read per table row, in table order |
| ParamsPanel.ReadAllOfBackendTable | src/components/motor/MotorParamsPanel.tsx:40-53 | "read all" on the backend's table reads the 22 writable parameters first, then the 11 read-only ones |
| ParamsPanel.CanIdFlow | src/components/motor/MotorParamsPanel.tsx:440-451 | the set, save and update calls and the status line after the guard; CanIdFlowOrder states their order and when each runs |
| ParamsPanel.CanIdFlowOrder | src/components/motor/MotorParamsPanel.tsx:440-451 | the id is set once, first; saving only after a successful set; the backend id moves only after a successful save; the status starts with "Error" iff a step failed |
| ParamsPanel.ParamsPanel.constructor | src/components/motor/MotorParamsPanel.tsx:19-21 | no edits, not reading, no CAN id text or status, no commands |
| ParamsPanel.ParamsPanel.SetEditValue | src/components/motor/MotorParamsPanel.tsx:20 | only that index's edit text changes |
| ParamsPanel.ParamsPanel.ReadAllParams | src/components/motor/MotorParamsPanel.tsx:40-53 | when connected: values cleared first, then one read per table row in order, whatever each read's outcome; when not connected nothing happens |
| ParamsPanel.ParamsPanel.WriteParam | src/components/motor/MotorParamsPanel.tsx:55-74 | nothing when the guard rejects; otherwise a write of the literal with the mapped type, then a read of the same index unless the write failed |
| ParamsPanel.ParamsPanel.SetNewCanId | src/components/motor/MotorParamsPanel.tsx:107 | only the CAN id text changes |
| ParamsPanel.ParamsPanel.SetCanIdClick | src/components/motor/MotorParamsPanel.tsx:436-452 | nothing when disconnected or the id is not in 0..127; otherwise the set/save/update sequence and its status |
| ParamsPanel.ParamsPanel.RunCanIdFlow | src/components/motor/MotorParamsPanel.tsx:440-451 | the awaited steps, each after the previous one succeeded, with the final status |
| FrameLogView.FormatHex | src/components/motor/CanFrameLog.tsx:16-17 | each byte as two upper-case hex digits, joined by spaces; FormatHexIsListing, ListingLayout and FormatHexParses state its text and that it parses back |
| FrameLogView.FormatHexIsListing | src/components/motor/CanFrameLog.tsx:16-17 | `formatHex` is the same text as the backend's `{:02X}` listing joined by spaces |
| FrameLogView.ListingLayout | src/components/motor/CanFrameLog.tsx:16-17 | three characters per byte: its two upper-case hex digits, then a single space between bytes and none after the last |
| FrameLogView.ByteHexUpper | src/components/motor/CanFrameLog.tsx:17 | both digits of a byte are upper-case hex digits |
| FrameLogView.FormatHexParses | src/components/motor/CanFrameLog.tsx:16-17 | the displayed hex parses back to the bytes |
| FrameLogView.FormatId | src/components/motor/CanFrameLog.tsx:19-20 | "0x" and the id in hex, padded to 8 or 3 digits; FormatIdDigits and FormatIdWidth state its digits and width |
| FrameLogView.FormatIdDigits | src/components/motor/CanFrameLog.tsx:19-20 | "0x" followed by upper-case hex digits that denote the id |
| FrameLogView.FormatIdWidth | src/components/motor/CanFrameLog.tsx:19-20 | an extended id always has 8 digits; a standard id has exactly 3 iff it is below 0x1000 |
| FrameLogView.CarriedLength | src/components/motor/CanFrameLog.tsx:33 | the raw frame carries at most 8 data bytes, all of them when there are fewer |
| FrameLogView.RawFrame | src/components/motor/CanFrameLog.tsx:27-35 | the 13-byte frame rebuilt from a log entry; RawFrameParts and RawFrameFields state its bytes, and the RawFrameOf lemmas match it to the frames the backend sent or received |
| FrameLogView.RawFrameParts | src/components/motor/CanFrameLog.tsx:27-35 | the raw frame is frame info, the id bytes and the carried data, then zeros |
| FrameLogView.BuildRawFrame | src/components/motor/CanFrameLog.tsx:23-37 | the padding loop yields the formatted 13-byte raw frame |
| FrameLogView.RawFrameFields | src/components/motor/CanFrameLog.tsx:24-35 | bit 7 of byte 0 is "extended", its low nibble the data length mod 16, bytes 1-4 the id big-endian, then the carried data and zeros |
| FrameLogView.RawFrameOfStandardSend | src/components/motor/CanFrameLog.tsx:23-37 | a logged standard send is shown as exactly the frame the backend built |
| FrameLogView.RawFrameOfExtendedSend | src/components/motor/CanFrameLog.tsx:23-37 | a logged extended send is shown as exactly the frame the backend built |
| FrameLogView.RawFrameOfReceived | src/components/motor/CanFrameLog.tsx:23-37 | a received frame is shown with its id and data bytes, and frame info 0x08 or 0x88; it is shown exactly iff its frame info was one of those |
| FrameLogView.RawTextSendable | src/components/motor/CanFrameLog.tsx:23-37 | the shown raw text, pasted into the raw send, sends exactly that frame |
| TextFormat.HexDigitValue | src-tauri/src/udp.rs:159 | each hex digit reads back to its value |
| TextFormat.ByteHex | src-tauri/src/udp.rs:159 | `{:02X}` of a byte is two hex digits denoting the byte |
| TextFormat.ToHex | src/components/motor/CanFrameLog.tsx:20 | `toString(16).toUpperCase()`; ToHexRoundTrip and ToHexLength state that it is the shortest upper-case numeral of the number |
| TextFormat.ToHexRoundTrip | src/components/motor/CanFrameLog.tsx:20 | `toString(16).toUpperCase()` is non-empty, upper-case, without a leading zero, and denotes the number |
| TextFormat.ToHexLength | src/components/motor/CanFrameLog.tsx:20 | the hex text fits in k digits iff the number is below 16^k |
| TextFormat.ByteHexPadded | src/components/motor/CanFrameLog.tsx:17 | the frontend's padded hex of a byte is the backend's `{:02X}` |
| TextFormat.PadStart | src/components/motor/CanFrameLog.tsx:17-20 | `padStart`: the length is the larger of the text's and the width, the text sits at the end and the rest is fill |
| TextFormat.ZeroPadValue | src/components/motor/CanFrameLog.tsx:20 | zero padding keeps the hex value |
| TextFormat.SplitWhitespace | src-tauri/src/udp.rs:764 | `split_whitespace`; SplitJoin shows it returns the tokens of a space-joined list |
| TextFormat.SplitJoin | src-tauri/src/udp.rs:763-766 | `split_whitespace` of space-joined tokens returns the tokens |
| TextFormat.FromStrRadix16 | src-tauri/src/udp.rs:765 | `u8::from_str_radix(_, 16)`: empty, a lone sign, a non-digit or a value above 255 is an error; ByteHexParses shows `{:02X}` text reads back |
| TextFormat.ByteHexParses | src-tauri/src/udp.rs:763-766 | `from_str_radix(_, 16)` reads a byte's two hex digits back to the byte |
| TextFormat.ParseByteTokens | src-tauri/src/udp.rs:763-767 | parsing the byte tokens gives the bytes back |
| TextFormat.ParseHexBytes | src-tauri/src/udp.rs:763-767 | the split, parse and collect of `udp_send_raw`, first error winning; ParseByteTokens and ListingRoundTrip show a hex listing parses back to its bytes |
| TextFormat.ListingRoundTrip | src-tauri/src/udp.rs:763-797 | the space-separated `{:02X}` listing of bytes parses back to them |
| TextFormat.HexConcat | src-tauri/src/udp.rs:158-161 | the joined hex is two characters per byte, each pair being the byte's hex |
| TextFormat.Decimal | src-tauri/src/udp.rs:174 | `{}` and `toString()` of a non-negative integer; DecimalRoundTrip states it is the shortest decimal numeral of the number |
| TextFormat.DecimalRoundTrip | src-tauri/src/udp.rs:174 | the `{}` text of a number is digits without a leading zero and denotes it |
| JsNumber.TrimStart | src/components/motor/MotorParamsPanel.tsx:58 | the leading whitespace is removed and nothing else |
| JsNumber.DigitRun | src/components/motor/MotorParamsPanel.tsx:438 | the longest prefix of decimal digits |
| JsNumber.HexRun | src/components/motor/MotorParamsPanel.tsx:438 | the longest prefix of hex digits |
| JsNumber.NumericPrefix | src/components/motor/MotorParamsPanel.tsx:58 | the part of the text `parseFloat` reads, no longer than the text; LiteralStartIff and IntStringIsNumeric state where it starts and that an integer's text is all of it |
| JsNumber.ParseFloatIsNaN | src/components/motor/MotorParamsPanel.tsx:58-59 | the `isNaN(parseFloat(s))` guard; ParseFloatNaNIff characterises it |
| JsNumber.LiteralStartIff | src/components/motor/MotorParamsPanel.tsx:58-59 | a decimal literal starts exactly at "Infinity", a digit, or a point followed by a digit |
| JsNumber.ParseFloatNaNIff | src/components/motor/MotorParamsPanel.tsx:58-59 | `parseFloat` is not NaN iff, after whitespace and a sign, the text starts with "Infinity", a digit or a point and a digit |
| JsNumber.IntStringShape | src/components/motor/MotorParamsPanel.tsx:92-94 | an integer's text is an optional minus and the digits of its magnitude |
| JsNumber.IntStringIsNumeric | src/components/motor/MotorParamsPanel.tsx:58-59 | an integer's text is all numeric prefix and not NaN |
| JsNumber.MagnitudeOfNumeral | src/components/motor/MotorParamsPanel.tsx:438 | `parseInt`'s magnitude of a decimal numeral followed by non-digits is its value |
| JsNumber.ParseInt | src/components/motor/MotorParamsPanel.tsx:438-439 | `parseInt`, NaN as None; MagnitudeOfNumeral and ParseIntDecimal state that an integer's text reads back as the integer |
| JsNumber.ParseIntDecimal | src/components/motor/MotorParamsPanel.tsx:438 | `parseInt` of an integer's text, with any non-digit text after it, is the integer |
| JsNumber.SignedNumeral | src/components/motor/MotorParamsPanel.tsx:438 | an integer's text has no leading whitespace; its sign is "-" iff it is negative |

## Left out

- Floating point. The physical scaling in `decode_feedback` and `decode_private_feedback` is left out, as are `float_to_uint`, `uint_to_float`, `cmd_position`, `cmd_speed`, `value_f32`, the float fields and `GRAVITY` scaling of `parse_hi91`, `toFixed(4)` for F32 values, and the f64-to-integer casts of `priv_param_write`. The model keeps the quantised integer fields, the raw 76-byte HI91 record, and the IEEE bit pattern of f32 writes, whose `to_le_bytes` layout is exact.
- Hipnuc.ParseHi91: keeps `main_status` in the packet. The source reads it and discards it.
- Sockets, threads, mutexes and the run flag of the receive thread (`udp_connect`, `udp_disconnect`, the recv error arms, `udp_diagnose`, `udp_scan_motors` and its 5 ms pacing) are left out. The socket is an abstract sink: what reaches it is an output and its `send` result is an input.
- The motor command wrappers in `udp.rs` (`motor_*` and `priv_*` commands) are thin calls of the builders in `MotorProtocol` and are not modelled separately.
- `src-tauri/src/serial.rs` (port I/O and CSV recording), `src-tauri/src/state.rs` and `src-tauri/src/lib.rs` are not part of this model.
- Real time and the browser scheduler are left out: `requestAnimationFrame`, `setInterval`, the 20/50/200 ms delays and `Date.now()`. Ticks and intervals are explicit method calls, and timestamps are parameters.
- Interleaving across `await` points is left out. Each handler runs start to finish with the outcomes of its awaited calls given as parameters.
- The multi-device registry (`addMotor`, `setActiveMotor`, `setDiscoveredMotors`) is recorded as calls in a log. The store the toolbar reads does not define it. `motor_stop_all` and the "motor-mit-scan-result" event have no backend counterpart, so the MIT scan ids are a parameter.
- Rendering, routing, charts and the 3D view are not part of this model. Neither are the thin UI glue components (control panel, connection toolbar, command console).
- JsNumber.ParseInt: exact on integers. It does not model the precision loss of JavaScript numbers above 2^53.
- ParamsPanel.WriteLiteral: sends the numeric prefix `parseFloat` reads, as text, not the double it converts to.
- The `console.error` of a failed read in `readAllParams`, and the 20 ms pause between reads, are not modelled: neither changes any state the panel or the stores hold.
- Hipnuc.SampleFrameDecodes: the sample frame is built with the model's own encoder. That its CRC field is the test's `14 BB` is not proved; the CRC variant is pinned by `Crc16CheckValue` instead.
- The browser's own sanitising of `type="number"` inputs is not modelled. The typed text reaches the handlers as it is.
- Gateway.RouteFrame: timestamps come from a clock parameter, one per frame.
