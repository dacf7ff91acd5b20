/** The UDP side of the CAN-ETH gateway: how the receive thread splits a datagram into 13-byte
    frames and routes each one to the frontend events, and how batch and raw-hex sends are
    validated. The socket itself is an abstract sink: what was handed to it is an output, and
    whether its `send` succeeded is an input. */
module Gateway {
  import opened Wrappers
  import opened TextFormat
  import opened MotorProtocol

  // ---------------------------------------------------------------------------------------
  // Events

  datatype Direction = Tx | Rx

  /** `CanFrameLog`, the payload of "can-frame-log"; the clock reading is a parameter. */
  datatype CanFrameLog = CanFrameLog(direction: Direction, canId: bv32, isExtended: bool, data: seq<bv8>, timestampMs: nat)

  /** One `app.emit` of the receive thread, with its payload. */
  datatype Event =
    | FrameLogged(entry: CanFrameLog)              // "can-frame-log"
    | Feedback(fb: MotorFeedback)                  // "motor-feedback"
    | DeviceInfo(motorId: bv8, deviceId: string)   // "motor-device-info"
    | ScanResult(motorId: bv8)                     // "motor-scan-result"
    | VersionInfo(motorId: bv8, version: string)   // "motor-version-info"
    | PrivateFeedbackEvent(pfb: PrivateFeedback)   // "motor-private-feedback"
    | ParamReadEvent(resp: ParamReadResponse)           // "motor-param-read"
    | FaultStatusEvent(status: FaultStatus)        // "motor-fault-status"

  // ---------------------------------------------------------------------------------------
  // Routing one received frame

  /** The "rx" log entry written for every received frame. */
  function RxLog(f: Frame13, now: nat): CanFrameLog {
    var p := ParseCanFrame(f);
    CanFrameLog(Rx, p.canId, IsExtendedDataFrame(p.frameInfo), p.data, now)
  }

  /** The response signature 00 C4 56 that marks a type-2 frame as a firmware version reply. */
  predicate IsVersionReply(data: Data8) {
    data[0] == 0x00 && data[1] == 0xC4 && data[2] == 0x56
  }

  /** `format!("{}.{}.{}.{}", data[3], data[4], data[5], data[6])`. */
  function VersionString(data: Data8): string {
    Decimal(data[3] as nat) + "." + Decimal(data[4] as nat) + "." + Decimal(data[5] as nat) + "." + Decimal(data[6] as nat)
  }

  /** The MIT branch: response command 1 (mode 0) addressed to this host. */
  function StandardEvents(canId: bv32, data: Data8, masterId: bv8): (evs: seq<Event>)
    ensures |evs| <= 1 && forall i :: 0 <= i < |evs| ==> !evs[i].FrameLogged?
  {
    var mode := (canId >> 8) & 0x07;
    var idField := (canId & 0xFF) as bv8;
    if mode == 0 && idField == masterId then [Feedback(DecodeFeedback(data))] else []
  }

  /** The private-protocol branch, by comm type. */
  function ExtendedEvents(canId: bv32, data: Data8): (evs: seq<Event>)
    ensures |evs| <= 2 && forall i :: 0 <= i < |evs| ==> !evs[i].FrameLogged?
  {
    var e := ParseExtCanId(canId);
    var responder := (e.dataArea2 & 0xFF) as bv8;
    if e.commType == 0 then
      [DeviceInfo(responder, HexConcat(data)), ScanResult(responder)]
    else if e.commType == 2 then
      if IsVersionReply(data) then [VersionInfo(responder, VersionString(data))]
      else
        var fb := DecodePrivateFeedback(e.dataArea2, data);
        [Feedback(FeedbackOfPrivate(fb)), PrivateFeedbackEvent(fb)]
    else if e.commType == 0x11 then [ParamReadEvent(DecodeParamReadResponse(e.dataArea2, data))]
    else if e.commType == 0x04 then []
    else if e.commType == 0x15 then [FaultStatusEvent(DecodeFaults(LE32(data[..4])))]
    else if e.commType == 0x18 then [PrivateFeedbackEvent(DecodePrivateFeedback(e.dataArea2, data))]
    else []
  }

  /** The body of the per-frame loop of `udp_recv_thread`: the events one frame produces, in
      emission order. Only the first is a log entry. */
  function RouteFrame(f: Frame13, masterId: bv8, now: nat): (evs: seq<Event>)
    ensures 1 <= |evs| <= 3 && evs[0] == FrameLogged(RxLog(f, now))
    ensures forall i :: 1 <= i < |evs| ==> !evs[i].FrameLogged?
  {
    var p := ParseCanFrame(f);
    [FrameLogged(RxLog(f, now))]
      + if IsStandardDataFrame(p.frameInfo) then StandardEvents(p.canId, p.data, masterId)
        else if IsExtendedDataFrame(p.frameInfo) then ExtendedEvents(p.canId, p.data)
        else []
  }

  /** Where the id fields sit in the four id bytes: the MIT mode bits and the low id byte in
      the last two, the private comm type in the first, data area 2 in the middle two. */
  lemma IdFields(b1: bv8, b2: bv8, b3: bv8, b4: bv8)
    ensures var id := (b1 as bv32 << 24) | (b2 as bv32 << 16) | (b3 as bv32 << 8) | b4 as bv32;
      && ((id >> 8) & 0x07 == 0 <==> b3 & 0x07 == 0)
      && (id & 0xFF) as bv8 == b4
      && ParseExtCanId(id) == ExtId(b1 & 0x1F, BE16(b2, b3), b4)
      && (BE16(b2, b3) & 0xFF) as bv8 == b3
  {
  }

  lemma IdFieldsInFrame(f: Frame13)
    ensures var id := BE32(f[1..5]);
      && ((id >> 8) & 0x07 == 0 <==> f[3] & 0x07 == 0)
      && (id & 0xFF) as bv8 == f[4]
      && ParseExtCanId(id) == ExtId(f[1] & 0x1F, BE16(f[2], f[3]), f[4])
      && (BE16(f[2], f[3]) & 0xFF) as bv8 == f[3]
  {
    FrameId(f);
    IdFields(f[1], f[2], f[3], f[4]);
  }

  lemma FrameId(f: Frame13)
    ensures BE32(f[1..5]) == (f[1] as bv32 << 24) | (f[2] as bv32 << 16) | (f[3] as bv32 << 8) | f[4] as bv32
  {
    assert f[1..5] == [f[1], f[2], f[3], f[4]];
    BE32Of(f[1], f[2], f[3], f[4]);
  }

  lemma BE32Of(b0: bv8, b1: bv8, b2: bv8, b3: bv8)
    ensures BE32([b0, b1, b2, b3]) == (b0 as bv32 << 24) | (b1 as bv32 << 16) | (b2 as bv32 << 8) | b3 as bv32
  {
  }

  /** The log entry comes first, carries the id and data bytes unchanged, and calls the frame
      extended exactly when bit 7 is set and bit 6 (remote) is clear. */
  lemma RxLogFirst(f: Frame13, masterId: bv8, now: nat)
    ensures var evs := RouteFrame(f, masterId, now);
      evs[0] == FrameLogged(CanFrameLog(Rx, BE32(f[1..5]), f[0] & 0xC0 == 0x80, f[5..13], now))
  {
  }

  /** A standard data frame yields motor feedback exactly when bits 8-10 of its id are zero and
      its low id byte is the master id, and nothing else. */
  lemma StandardRouting(f: Frame13, masterId: bv8, now: nat)
    requires f[0] & 0xC0 == 0
    ensures var evs := RouteFrame(f, masterId, now);
      evs[1..] == if f[3] & 0x07 == 0 && f[4] == masterId then [Feedback(DecodeFeedback(f[5..13]))] else []
  {
    IdFieldsInFrame(f);
  }

  /** A remote frame (bit 6 set) only gets its log entry. */
  lemma RemoteFrameOnlyLogged(f: Frame13, masterId: bv8, now: nat)
    requires f[0] & 0x40 != 0
    ensures |RouteFrame(f, masterId, now)| == 1
  {
    FrameKindsDisjoint(f[0]);
  }

  /** Comm type 0: the device id is the 16 upper-case hex digits of the data bytes, and the
      responding motor id (byte 3) is announced as a scan result. */
  lemma DeviceIdRouting(f: Frame13, masterId: bv8, now: nat)
    requires f[0] & 0xC0 == 0x80 && f[1] & 0x1F == 0
    ensures var evs := RouteFrame(f, masterId, now);
      |evs| == 3 && evs[1].DeviceInfo? && evs[1].motorId == f[3] && evs[2] == ScanResult(f[3])
    ensures var id := RouteFrame(f, masterId, now)[1].deviceId;
      |id| == 16 && forall i :: 0 <= i < 8 ==> id[2 * i..2 * i + 2] == ByteHex(f[5 + i])
  {
    var evs := RouteFrame(f, masterId, now);
    var data: Data8 := f[5..13];
    assert evs[1..] == [DeviceInfo(f[3], HexConcat(data)), ScanResult(f[3])] by {
      ExtendedRoute(f, masterId, now);
    }
    var id := evs[1].deviceId;
    forall i | 0 <= i < 8
      ensures id[2 * i..2 * i + 2] == ByteHex(f[5 + i])
    {
      assert data[i] == f[5 + i];
    }
  }

  /** An extended data frame is routed by its parsed id fields. */
  lemma ExtendedRoute(f: Frame13, masterId: bv8, now: nat)
    requires f[0] & 0xC0 == 0x80
    ensures RouteFrame(f, masterId, now)[1..] == ExtendedEvents(BE32(f[1..5]), f[5..13])
    ensures ParseExtCanId(BE32(f[1..5])) == ExtId(f[1] & 0x1F, BE16(f[2], f[3]), f[4])
    ensures (BE16(f[2], f[3]) & 0xFF) as bv8 == f[3]
  {
    IdFieldsInFrame(f);
  }

  /** Comm type 2 with the 00 C4 56 signature is only a version reply, "d3.d4.d5.d6" in
      decimal; any other type-2 frame gives both feedback events from the same decoding. */
  lemma Type2Routing(f: Frame13, masterId: bv8, now: nat)
    requires f[0] & 0xC0 == 0x80 && f[1] & 0x1F == 2
    ensures var evs := RouteFrame(f, masterId, now);
      if f[5] == 0x00 && f[6] == 0xC4 && f[7] == 0x56 then
        evs[1..] == [VersionInfo(f[3], Decimal(f[8] as nat) + "." + Decimal(f[9] as nat) + "." + Decimal(f[10] as nat) + "." + Decimal(f[11] as nat))]
      else
        var fb := DecodePrivateFeedback(BE16(f[2], f[3]), f[5..13]);
        evs[1..] == [Feedback(FeedbackOfPrivate(fb)), PrivateFeedbackEvent(fb)]
  {
    IdFieldsInFrame(f);
  }

  /** Comm types 0x11, 0x15 and 0x18 each yield one event: the parameter read response, the
      fault status of the little-endian word in data bytes 0-3, or private feedback alone. */
  lemma SingleEventRouting(f: Frame13, masterId: bv8, now: nat)
    requires f[0] & 0xC0 == 0x80
    ensures var evs := RouteFrame(f, masterId, now); var da2 := BE16(f[2], f[3]);
      && (f[1] & 0x1F == 0x11 ==> evs[1..] == [ParamReadEvent(DecodeParamReadResponse(da2, f[5..13]))])
      && (f[1] & 0x1F == 0x15 ==> evs[1..] == [FaultStatusEvent(DecodeFaults(LE32(f[5..9])))])
      && (f[1] & 0x1F == 0x18 ==> evs[1..] == [PrivateFeedbackEvent(DecodePrivateFeedback(da2, f[5..13]))])
  {
    IdFieldsInFrame(f);
    assert f[5..13][..4] == f[5..9];
  }

  /** Comm type 4 and every comm type without a branch only get the log entry. */
  lemma OtherCommTypesOnlyLogged(f: Frame13, masterId: bv8, now: nat)
    requires f[0] & 0xC0 == 0x80
    requires f[1] & 0x1F !in {0x00, 0x02, 0x11, 0x15, 0x18}
    ensures |RouteFrame(f, masterId, now)| == 1
  {
    IdFieldsInFrame(f);
  }

  // ---------------------------------------------------------------------------------------
  // Datagrams

  /** The size of the receive buffer `buf`. */
  const RECV_BUF_SIZE: nat := 1024

  /** `socket.recv(&mut buf)`: a datagram longer than the buffer is cut to its first
      1024 bytes; a shorter one is received whole. */
  function Received(packet: seq<bv8>): (datagram: seq<bv8>)
    ensures |datagram| <= RECV_BUF_SIZE
    ensures datagram <= packet
    ensures |packet| <= RECV_BUF_SIZE ==> datagram == packet
    ensures |packet| > RECV_BUF_SIZE ==> |datagram| == RECV_BUF_SIZE
  {
    if |packet| <= RECV_BUF_SIZE then packet else packet[..RECV_BUF_SIZE]
  }

  /** The frames of a datagram, front to back; a tail shorter than a frame is dropped. */
  function SplitFrames(datagram: seq<bv8>): (frames: seq<Frame13>)
    ensures |frames| == |datagram| / 13
    decreases |datagram|
  {
    if |datagram| < CAN_FRAME_SIZE then []
    else [datagram[..CAN_FRAME_SIZE]] + SplitFrames(datagram[CAN_FRAME_SIZE..])
  }

  /** One `recv` yields at most 78 frames: the 1024-byte buffer holds 78 whole frames and
      10 bytes over, so the frames of a longer packet past the 78th are lost. */
  lemma RecvFrameBound(packet: seq<bv8>)
    ensures |SplitFrames(Received(packet))| <= 78
    ensures |packet| >= RECV_BUF_SIZE ==> |SplitFrames(Received(packet))| == 78
  {
  }

  /** The i-th frame of a datagram is the 13 bytes at offset 13·i. */
  lemma {:induction false} FrameOffset(datagram: seq<bv8>, i: nat)
    requires i < |datagram| / 13
    ensures 13 * i + 13 <= |datagram|
    ensures SplitFrames(datagram)[i] == datagram[13 * i..13 * i + 13]
    decreases i
  {
    var rest := datagram[13..];
    FrameCountStep(|datagram|);
    if i > 0 {
      FrameOffset(rest, i - 1);
      assert SplitFrames(datagram)[i] == SplitFrames(rest)[i - 1];
      assert 13 * (i - 1) + 13 == 13 * i;
      assert rest[13 * (i - 1)..13 * (i - 1) + 13] == datagram[13 * i..13 * i + 13];
    }
  }

  lemma FrameCountStep(n: nat)
    requires n >= 13
    ensures n / 13 == (n - 13) / 13 + 1
  {
  }

  /** Bytes after the last whole frame never reach the router. */
  lemma {:induction false} TrailingBytesIgnored(frames: seq<bv8>, tail: seq<bv8>)
    requires |frames| % 13 == 0 && |tail| < 13
    ensures SplitFrames(frames + tail) == SplitFrames(frames)
    decreases |frames|
  {
    if |frames| == 0 {
      assert frames + tail == tail;
    } else {
      assert (frames + tail)[..13] == frames[..13];
      assert (frames + tail)[13..] == frames[13..] + tail;
      TrailingBytesIgnored(frames[13..], tail);
    }
  }

  /** The lists concatenated in order. */
  function Flatten<T>(xss: seq<seq<T>>): seq<T> {
    if xss == [] then [] else Flatten(xss[..|xss| - 1]) + xss[|xss| - 1]
  }

  /** One more list appends its elements to those of the lists before it. */
  lemma FlattenSnoc<T>(xss: seq<seq<T>>, i: nat)
    requires i < |xss|
    ensures Flatten(xss[..i + 1]) == Flatten(xss[..i]) + xss[i]
  {
    assert xss[..i + 1][..i] == xss[..i];
  }

  /** Each frame's events, frame by frame. */
  function RoutedFrames(frames: seq<Frame13>, masterId: bv8, stamps: seq<nat>): (r: seq<seq<Event>>)
    requires |stamps| == |frames|
    ensures |r| == |frames|
  {
    seq(|frames|, k requires 0 <= k < |frames| => RouteFrame(frames[k], masterId, stamps[k]))
  }

  /** The events of a run of frames, each frame's events after the previous frame's. */
  function RouteAll(frames: seq<Frame13>, masterId: bv8, stamps: seq<nat>): seq<Event>
    requires |stamps| == |frames|
  {
    Flatten(RoutedFrames(frames, masterId, stamps))
  }

  /** The frame loop of `udp_recv_thread` for one datagram (`buf[..n]`, so at most the
      buffer's 1024 bytes), with the clock reading taken for the i-th frame in `stamps[i]`. */
  method ReceiveDatagram(datagram: seq<bv8>, masterId: bv8, stamps: seq<nat>) returns (events: seq<Event>)
    requires |datagram| <= RECV_BUF_SIZE
    requires |stamps| == |datagram| / 13
    ensures events == RouteAll(SplitFrames(datagram), masterId, stamps)
  {
    ghost var routed := RoutedFrames(SplitFrames(datagram), masterId, stamps);
    events := [];
    if |datagram| >= CAN_FRAME_SIZE {
      var frameCount := |datagram| / CAN_FRAME_SIZE;
      var i := 0;
      while i < frameCount
        invariant 0 <= i <= frameCount
        invariant events == Flatten(routed[..i])
      {
        var frame := CopyFrame(datagram, i, frameCount);
        FlattenSnoc(routed, i);
        events := events + RouteFrame(frame, masterId, stamps[i]);
        i := i + 1;
      }
      assert routed[..frameCount] == routed;
    } else {
      assert routed == [];
    }
  }

  /** `frame_bytes.copy_from_slice(&buf[offset..offset + CAN_FRAME_SIZE])` for the i-th
      frame: the copy is the datagram's i-th frame. */
  method CopyFrame(datagram: seq<bv8>, i: nat, frameCount: nat) returns (frame: Frame13)
    requires frameCount == |datagram| / CAN_FRAME_SIZE && i < frameCount
    ensures frame == SplitFrames(datagram)[i]
  {
    var offset := i * CAN_FRAME_SIZE;
    FrameOffset(datagram, i);
    assert offset == 13 * i;
    frame := datagram[offset..offset + CAN_FRAME_SIZE];
  }

  /** The log entries among a run of events, in order. */
  function Logs(evs: seq<Event>): seq<CanFrameLog> {
    if evs == [] then []
    else (if evs[0].FrameLogged? then [evs[0].entry] else []) + Logs(evs[1..])
  }

  lemma {:induction false} LogsConcat(a: seq<Event>, b: seq<Event>)
    ensures Logs(a + b) == Logs(a) + Logs(b)
  {
    if a == [] {
      assert a + b == b;
    } else {
      var head := if a[0].FrameLogged? then [a[0].entry] else [];
      assert (a + b)[0] == a[0];
      assert (a + b)[1..] == a[1..] + b;
      assert Logs(a + b) == head + Logs(a[1..] + b);
      LogsConcat(a[1..], b);
      assert Logs(a) == head + Logs(a[1..]);
    }
  }

  lemma {:induction false} LogsOfFrame(f: Frame13, masterId: bv8, now: nat)
    ensures Logs(RouteFrame(f, masterId, now)) == [RxLog(f, now)]
  {
    var evs := RouteFrame(f, masterId, now);
    var k := |evs|;
    assert Logs(evs) == [RxLog(f, now)] + Logs(evs[1..]);
    if k >= 2 {
      assert Logs(evs[1..]) == Logs(evs[2..]);
      if k == 3 {
        assert Logs(evs[2..]) == Logs(evs[3..]);
      }
    }
  }

  /** The "rx" log entries of a run of frames, one per frame. */
  function RxLogs(frames: seq<Frame13>, stamps: seq<nat>): (logs: seq<CanFrameLog>)
    requires |stamps| == |frames|
    ensures |logs| == |frames|
    ensures forall i :: 0 <= i < |frames| ==> logs[i] == RxLog(frames[i], stamps[i])
  {
    if frames == [] then []
    else
      var n := |frames| - 1;
      RxLogs(frames[..n], stamps[..n]) + [RxLog(frames[n], stamps[n])]
  }

  /** Every frame of a datagram is logged exactly once, in frame order, whatever else it
      triggers. */
  lemma {:induction false} DatagramLogs(frames: seq<Frame13>, masterId: bv8, stamps: seq<nat>)
    requires |stamps| == |frames|
    ensures Logs(RouteAll(frames, masterId, stamps)) == RxLogs(frames, stamps)
  {
    if frames != [] {
      var n := |frames| - 1;
      var front := RouteAll(frames[..n], masterId, stamps[..n]);
      var last := RouteFrame(frames[n], masterId, stamps[n]);
      RouteAllLast(frames, masterId, stamps);
      LogsConcat(front, last);
      LogsOfFrame(frames[n], masterId, stamps[n]);
      DatagramLogs(frames[..n], masterId, stamps[..n]);
    }
  }

  lemma RouteAllLast(frames: seq<Frame13>, masterId: bv8, stamps: seq<nat>)
    requires |stamps| == |frames| && frames != []
    ensures var n := |frames| - 1;
      RouteAll(frames, masterId, stamps) == RouteAll(frames[..n], masterId, stamps[..n]) + RouteFrame(frames[n], masterId, stamps[n])
  {
    var n := |frames| - 1;
    var r := RoutedFrames(frames, masterId, stamps);
    assert r[..n] == RoutedFrames(frames[..n], masterId, stamps[..n]);
  }

  /** A datagram shorter than one frame produces no events at all. */
  lemma ShortDatagramIgnored(datagram: seq<bv8>, masterId: bv8)
    requires |datagram| < 13
    ensures RouteAll(SplitFrames(datagram), masterId, []) == []
  {
  }

  // ---------------------------------------------------------------------------------------
  // Batch send

  const ERR_NOT_CONNECTED: string := "UDP not connected"
  const ERR_BATCH_FRAME_SIZE: string := "Each CAN frame must have exactly 8 data bytes"
  const ERR_BATCH_TOO_LARGE: string := "Batch too large (max 650 bytes / 50 frames)"
  const MAX_BATCH_BYTES: nat := 650

  /** One `(u16, Vec<u8>)` element of the batch. */
  datatype BatchEntry = BatchEntry(canId: bv16, data: seq<bv8>)

  /** The "tx" log entry written for a batch element once its frame is built. */
  function TxLog(e: BatchEntry, now: nat): CanFrameLog {
    CanFrameLog(Tx, e.canId as bv32, false, e.data, now)
  }

  /** The position of the first element whose data is not 8 bytes, or the batch length. */
  function FirstBadEntry(entries: seq<BatchEntry>): (k: nat)
    ensures k <= |entries|
    ensures forall i :: 0 <= i < k ==> |entries[i].data| == 8
    ensures k < |entries| ==> |entries[k].data| != 8
  {
    if entries == [] || |entries[0].data| != 8 then 0 else 1 + FirstBadEntry(entries[1..])
  }

  predicate WellSized(entries: seq<BatchEntry>) {
    forall i :: 0 <= i < |entries| ==> |entries[i].data| == 8
  }

  /** The packet of a well-sized batch: the frames appended one after another. */
  function Packet(entries: seq<BatchEntry>): seq<bv8>
    requires WellSized(entries)
  {
    if entries == [] then []
    else
      var n := |entries| - 1;
      Packet(entries[..n]) + BuildCanFrame(entries[n].canId, entries[n].data)
  }

  function TxLogs(entries: seq<BatchEntry>, stamps: seq<nat>): seq<CanFrameLog>
    requires |stamps| == |entries|
  {
    seq(|entries|, i requires 0 <= i < |entries| => TxLog(entries[i], stamps[i]))
  }

  /** `udp_send_batch`: the packet handed to the socket (None when nothing is sent), the "tx"
      log entries emitted, and the command's result. `stamps[i]` is the clock reading for the
      i-th log entry and `sendError` the socket's verdict on the send. */
  method SendBatch(connected: bool, entries: seq<BatchEntry>, stamps: seq<nat>, sendError: Option<string>)
    returns (sent: Option<seq<bv8>>, logs: seq<CanFrameLog>, result: Result<(), string>)
    requires |stamps| == |entries|
    ensures !connected ==> sent == None && logs == [] && result == Err(ERR_NOT_CONNECTED)
    ensures connected ==> var k := FirstBadEntry(entries);
      && logs == TxLogs(entries[..k], stamps[..k])
      && (k < |entries| ==> sent == None && result == Err(ERR_BATCH_FRAME_SIZE))
    ensures connected && WellSized(entries) && |Packet(entries)| > MAX_BATCH_BYTES ==>
      sent == None && result == Err(ERR_BATCH_TOO_LARGE)
    ensures connected && WellSized(entries) && |Packet(entries)| <= MAX_BATCH_BYTES ==>
      && sent == Some(Packet(entries))
      && result == (if sendError.Some? then Err("UDP batch send failed: " + sendError.value) else Ok(()))
  {
    if !connected {
      return None, [], Err(ERR_NOT_CONNECTED);
    }
    var packet: seq<bv8> := [];
    logs := [];
    var i := 0;
    while i < |entries|
      invariant 0 <= i <= |entries| && i <= FirstBadEntry(entries)
      invariant WellSized(entries[..i])
      invariant packet == Packet(entries[..i])
      invariant logs == TxLogs(entries[..i], stamps[..i])
    {
      if |entries[i].data| != 8 {
        return None, logs, Err(ERR_BATCH_FRAME_SIZE);
      }
      var frame := BuildCanFrame(entries[i].canId, entries[i].data);
      packet := packet + frame;
      logs := logs + [TxLog(entries[i], stamps[i])];
      i := i + 1;
      assert entries[..i][..i - 1] == entries[..i - 1];
    }
    assert entries[..i] == entries;
    assert stamps[..i] == stamps;
    if |packet| > MAX_BATCH_BYTES {
      return None, logs, Err(ERR_BATCH_TOO_LARGE);
    }
    sent := Some(packet);
    result := if sendError.Some? then Err("UDP batch send failed: " + sendError.value) else Ok(());
  }

  /** A well-sized batch of n elements is 13·n bytes, so the 650-byte limit admits at most 50
      frames. */
  lemma {:induction false} PacketLength(entries: seq<BatchEntry>)
    requires WellSized(entries)
    ensures |Packet(entries)| == 13 * |entries|
    ensures |Packet(entries)| <= MAX_BATCH_BYTES <==> |entries| <= 50
  {
    if entries != [] {
      PacketLength(entries[..|entries| - 1]);
    }
  }

  lemma {:induction false} SplitFramesSnoc(p: seq<bv8>, f: Frame13)
    requires |p| % 13 == 0
    ensures SplitFrames(p + f) == SplitFrames(p) + [f]
    decreases |p|
  {
    if p == [] {
      assert (p + f)[..13] == f;
      assert (p + f)[13..] == [];
    } else {
      assert (p + f)[..13] == p[..13];
      assert (p + f)[13..] == p[13..] + f;
      SplitFramesSnoc(p[13..], f);
    }
  }

  /** The receiver splits a batch packet back into its elements: each frame parses to a
      standard data frame with the element's id and data. */
  lemma {:induction false} BatchPacketFrames(entries: seq<BatchEntry>)
    requires WellSized(entries)
    ensures |SplitFrames(Packet(entries))| == |entries|
    ensures forall i :: 0 <= i < |entries| ==>
      ParseCanFrame(SplitFrames(Packet(entries))[i]) == ParsedFrame(0x08, entries[i].canId as bv32, entries[i].data)
  {
    if entries != [] {
      var n := |entries| - 1;
      var front := entries[..n];
      var last := BuildCanFrame(entries[n].canId, entries[n].data);
      BatchPacketFrames(front);
      PacketLength(front);
      SplitFramesSnoc(Packet(front), last);
      var split := SplitFrames(Packet(entries));
      assert split == SplitFrames(Packet(front)) + [last];
      forall i | 0 <= i < |entries|
        ensures ParseCanFrame(split[i]) == ParsedFrame(0x08, entries[i].canId as bv32, entries[i].data)
      {
        if i < n {
          assert split[i] == SplitFrames(Packet(front))[i];
          assert front[i] == entries[i];
        }
      }
    }
  }

  // ---------------------------------------------------------------------------------------
  // Raw send

  /** The `Display` text of Rust's `ParseIntError`. */
  function IntErrorMessage(k: IntErrorKind): string {
    match k
    case Empty => "cannot parse integer from empty string"
    case InvalidDigit => "invalid digit found in string"
    case PosOverflow => "number too large to fit in target type"
  }

  /** The error texts the frontend receives tell the three parse failures apart. */
  lemma IntErrorMessagesDistinct(a: IntErrorKind, b: IntErrorKind)
    ensures IntErrorMessage(a) == IntErrorMessage(b) <==> a == b
  {
  }

  /** What `udp_send_raw` hands to the socket, emits, and returns. */
  datatype RawSend = RawSend(sent: Option<seq<bv8>>, log: Option<CanFrameLog>, result: Result<string, string>)

  /** `udp_send_raw`: parse the whitespace-separated hex bytes, insist on 13 of them, then send.
      `sendOutcome` is what the socket's `send` returns. */
  function SendRaw(hex: string, connected: bool, sendOutcome: Result<nat, string>, now: nat): (r: RawSend)
    ensures r.sent.Some? <==> connected && ParseHexBytes(hex).Ok? && |ParseHexBytes(hex).value| == 13
    ensures r.sent.Some? ==> ParseHexBytes(hex) == Ok(r.sent.value)
    ensures r.log.Some? <==> r.sent.Some? && sendOutcome.Ok?
    ensures r.result.Ok? <==> r.log.Some?
    ensures r.log.Some? ==> (r.log.value.isExtended <==> r.sent.value[0] & 0x80 != 0)
  {
    match ParseHexBytes(hex)
    case Err(e) => RawSend(None, None, Err("Invalid hex: " + IntErrorMessage(e)))
    case Ok(bytes) =>
      if |bytes| != 13 then RawSend(None, None, Err("Need exactly 13 bytes, got " + Decimal(|bytes|)))
      else if !connected then RawSend(None, None, Err(ERR_NOT_CONNECTED))
      else match sendOutcome
        case Err(e) => RawSend(Some(bytes), None, Err("Send failed: " + e))
        case Ok(n) =>
          var entry := CanFrameLog(Tx, BE32(bytes[1..5]), bytes[0] & 0x80 != 0, bytes[5..13], now);
          RawSend(Some(bytes), Some(entry), Ok("Sent " + Decimal(n) + " bytes: [" + HexListing(bytes) + "]"))
  }

  /** The hex listing of any 13-byte frame is sent as exactly that frame, logged with the id and
      data it carries, and echoed back in the reply. */
  lemma SendRawListing(f: Frame13, n: nat, now: nat)
    ensures SendRaw(HexListing(f), true, Ok(n), now) ==
      RawSend(Some(f), Some(CanFrameLog(Tx, BE32(f[1..5]), f[0] >= 0x80, f[5..13], now)),
              Ok("Sent " + Decimal(n) + " bytes: [" + HexListing(f) + "]"))
  {
    ListingRoundTrip(f);
  }

  /** The raw-send log and the receive log agree on "extended" for every data frame; they differ
      only on remote frames with bit 7 set, which the sender calls extended and the receiver
      does not. */
  lemma TxRxExtendedAgree(f: Frame13, n: nat, now: nat)
    ensures var r := SendRaw(HexListing(f), true, Ok(n), now);
      r.log.Some? && (r.log.value.isExtended == RxLog(f, now).isExtended <==> f[0] & 0xC0 != 0xC0)
  {
    SendRawListing(f, n, now);
  }

  // ---------------------------------------------------------------------------------------
  // Parameter table

  /** One JSON row of `get_param_table`; enum fields are their `{:?}` names. */
  datatype ParamRow = ParamRow(index: bv16, name: string, desc: string, paramType: string, access: string, defaultStr: string)

  /** `format!("{:?}", t)` of a parameter type: its variant name. */
  function ParamTypeName(t: ParamType): string {
    match t
    case U8 => "U8"
    case U16 => "U16"
    case U32 => "U32"
    case I16 => "I16"
    case F32 => "F32"
    case Str => "Str"
  }

  /** `format!("{:?}", a)` of an access mode: its variant name. */
  function AccessName(a: ParamAccess): string {
    match a
    case R => "R"
    case W => "W"
    case RW => "RW"
  }

  /** The access names the frontend receives tell the access modes apart. */
  lemma AccessNamesDistinct(a: ParamAccess, b: ParamAccess)
    ensures AccessName(a) == AccessName(b) <==> a == b
  {
  }

  /** The type names the frontend receives tell the types apart. */
  lemma ParamTypeNamesDistinct(s: ParamType, t: ParamType)
    ensures ParamTypeName(s) == ParamTypeName(t) <==> s == t
  {
  }

  /** The `json!` object of one definition. */
  function RowOf(p: ParamDef): ParamRow {
    ParamRow(p.index, p.name, p.desc, ParamTypeName(p.paramType), AccessName(p.access), p.defaultStr)
  }

  /** The rows of a list of definitions, one per definition, in order. */
  function ParamRows(defs: seq<ParamDef>): (rows: seq<ParamRow>)
    ensures |rows| == |defs|
    ensures forall i :: 0 <= i < |defs| ==>
      rows[i] == ParamRow(defs[i].index, defs[i].name, defs[i].desc, ParamTypeName(defs[i].paramType),
                          AccessName(defs[i].access), defs[i].defaultStr)
  {
    if defs == [] then [] else [RowOf(defs[0])] + ParamRows(defs[1..])
  }

  /** `get_param_table`: the writable parameters, then the read-only ones. */
  function GetParamTable(): seq<ParamRow> {
    ParamRows(WRITABLE_PARAMS + READONLY_PARAMS)
  }

  /** The table has all 33 rows: the 22 writable ones first, in their own order, then the 11
      read-only ones in theirs. */
  lemma ParamTableOrder()
    ensures |GetParamTable()| == |WRITABLE_PARAMS| + |READONLY_PARAMS| == 33
    ensures forall i :: 0 <= i < |WRITABLE_PARAMS| ==> GetParamTable()[i].index == WRITABLE_PARAMS[i].index
    ensures forall i :: 0 <= i < |READONLY_PARAMS| ==>
      GetParamTable()[|WRITABLE_PARAMS| + i].index == READONLY_PARAMS[i].index
  {
    var all := WRITABLE_PARAMS + READONLY_PARAMS;
    assert forall i :: 0 <= i < |WRITABLE_PARAMS| ==> all[i] == WRITABLE_PARAMS[i];
    assert forall i :: 0 <= i < |READONLY_PARAMS| ==> all[|WRITABLE_PARAMS| + i] == READONLY_PARAMS[i];
  }
}
