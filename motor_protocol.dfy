/** The CAN-over-UDP codec of the RS00 motor protocol: the gateway's 13-byte transparent frame,
    the MIT standard-frame commands, the private-protocol 29-bit extended id and its commands,
    the fault word, and the parameter table and read response. Only the integer bit layouts
    are modelled; the float scaling of the physical quantities is not part of this model. */
module MotorProtocol {
  import opened Wrappers

  const CAN_FRAME_SIZE: nat := 13

  /** The 8 data bytes of a CAN frame (`[u8; 8]`). */
  type Data8 = s: seq<bv8> | |s| == 8 witness [0, 0, 0, 0, 0, 0, 0, 0]

  /** One frame of the CAN-ETH gateway (`[u8; CAN_FRAME_SIZE]`). */
  type Frame13 = s: seq<bv8> | |s| == 13 witness [0, 0, 0, 0, 0, 0, 0, 0, 0, 0, 0, 0, 0]

  // ---------------------------------------------------------------------------------------
  // Byte-order helpers

  function BE16(hi: bv8, lo: bv8): bv16 {
    (hi as bv16 << 8) | lo as bv16
  }

  function BE32(b: seq<bv8>): bv32
    requires |b| == 4
  {
    (b[0] as bv32 << 24) | (b[1] as bv32 << 16) | (b[2] as bv32 << 8) | b[3] as bv32
  }

  function LE32(b: seq<bv8>): bv32
    requires |b| == 4
  {
    b[0] as bv32 | (b[1] as bv32 << 8) | (b[2] as bv32 << 16) | (b[3] as bv32 << 24)
  }

  /** `x.to_be_bytes()`, the inverse of BE16. */
  function BytesBE16(x: bv16): (b: seq<bv8>)
    ensures |b| == 2 && BE16(b[0], b[1]) == x
  {
    [(x >> 8) as bv8, (x & 0xFF) as bv8]
  }

  /** `x.to_be_bytes()`, the inverse of BE32. */
  function BytesBE32(x: bv32): (b: seq<bv8>)
    ensures |b| == 4 && BE32(b) == x
  {
    [((x >> 24) & 0xFF) as bv8, ((x >> 16) & 0xFF) as bv8, ((x >> 8) & 0xFF) as bv8, (x & 0xFF) as bv8]
  }

  /** `x.to_le_bytes()`, the inverse of LE32. */
  function BytesLE32(x: bv32): (b: seq<bv8>)
    ensures |b| == 4 && LE32(b) == x
  {
    [(x & 0xFF) as bv8, ((x >> 8) & 0xFF) as bv8, ((x >> 16) & 0xFF) as bv8, ((x >> 24) & 0xFF) as bv8]
  }

  lemma BE32Injective(b: seq<bv8>)
    requires |b| == 4
    ensures BytesBE32(BE32(b)) == b
  {
  }

  lemma LE32Injective(b: seq<bv8>)
    requires |b| == 4
    ensures BytesLE32(LE32(b)) == b
  {
  }

  // ---------------------------------------------------------------------------------------
  // The 13-byte gateway frame

  datatype ParsedFrame = ParsedFrame(frameInfo: bv8, canId: bv32, data: Data8)

  /** `parse_can_frame`: frame-info byte, big-endian 32-bit id, then the 8 data bytes. */
  function ParseCanFrame(f: Frame13): (p: ParsedFrame)
    ensures [p.frameInfo] + BytesBE32(p.canId) + p.data == f
  {
    BE32Injective(f[1..5]);
    assert f == [f[0]] + f[1..5] + f[5..13];
    ParsedFrame(f[0], BE32(f[1..5]), f[5..13])
  }

  /** `build_can_frame`: a standard data frame with DLC 8 and the 16-bit id in bytes 3-4. */
  function BuildCanFrame(canId: bv16, data: Data8): (f: Frame13)
    ensures f[1] == 0 && f[2] == 0
    ensures IsStandardDataFrame(f[0])
    ensures ParseCanFrame(f) == ParsedFrame(0x08, canId as bv32, data)
  {
    var f := [0x08, 0, 0, (canId >> 8) as bv8, (canId & 0xFF) as bv8] + data;
    assert f[1..5] == [0, 0, (canId >> 8) as bv8, (canId & 0xFF) as bv8];
    assert f[5..13] == data;
    f
  }

  /** `build_ext_can_frame`: an extended data frame with DLC 8 and the id big-endian. */
  function BuildExtCanFrame(extCanId: bv32, data: Data8): (f: Frame13)
    ensures IsExtendedDataFrame(f[0])
    ensures ParseCanFrame(f) == ParsedFrame(0x88, extCanId, data)
  {
    var f := [0x88] + BytesBE32(extCanId) + data;
    assert f[1..5] == BytesBE32(extCanId);
    assert f[5..13] == data;
    f
  }

  /** The other direction of the round trip for extended frames: an extended data frame with
      DLC 8 is rebuilt exactly from what parsing it returns. */
  lemma ParseThenBuildExt(f: Frame13)
    requires f[0] == 0x88
    ensures BuildExtCanFrame(ParseCanFrame(f).canId, ParseCanFrame(f).data) == f
  {
    BE32Injective(f[1..5]);
    assert f == [f[0]] + f[1..5] + f[5..13];
  }

  /** The other direction for standard frames whose id bytes 1-2 are zero. */
  lemma ParseThenBuildStd(f: Frame13)
    requires f[0] == 0x08 && f[1] == 0 && f[2] == 0
    ensures BuildCanFrame(ParseCanFrame(f).canId as bv16, ParseCanFrame(f).data) == f
  {
    StdIdBytes(f[3], f[4]);
    assert f[1..5] == [0, 0, f[3], f[4]];
    assert f == [f[0], f[1], f[2], f[3], f[4]] + f[5..13];
  }

  lemma StdIdBytes(hi: bv8, lo: bv8)
    ensures var c := BE32([0, 0, hi, lo]) as bv16; (c >> 8) as bv8 == hi && (c & 0xFF) as bv8 == lo
  {
  }

  /** `is_standard_data_frame`: bit 7 (extended) and bit 6 (remote) both clear. */
  predicate IsStandardDataFrame(frameInfo: bv8): (b: bool)
    ensures b <==> frameInfo < 0x40
  {
    frameInfo & 0xC0 == 0
  }

  /** `is_extended_data_frame`: bit 7 set and bit 6 clear. */
  predicate IsExtendedDataFrame(frameInfo: bv8): (b: bool)
    ensures b <==> 0x80 <= frameInfo < 0xC0
  {
    frameInfo & 0xC0 == 0x80
  }

  /** No frame-info byte is both kinds, and a remote frame (bit 6 set) is neither. */
  lemma FrameKindsDisjoint(frameInfo: bv8)
    ensures !(IsStandardDataFrame(frameInfo) && IsExtendedDataFrame(frameInfo))
    ensures frameInfo & 0x40 != 0 ==> !IsStandardDataFrame(frameInfo) && !IsExtendedDataFrame(frameInfo)
  {
  }

  /** `make_can_id`: the MIT standard id, mode in the high byte and motor id in the low byte. */
  function MakeCanId(mode: bv8, motorId: bv8): (id: bv16)
    ensures (id >> 8) as bv8 == mode && (id & 0xFF) as bv8 == motorId
  {
    (mode as bv16 << 8) | motorId as bv16
  }

  // ---------------------------------------------------------------------------------------
  // The private protocol's 29-bit extended id

  datatype ExtId = ExtId(commType: bv8, dataArea2: bv16, targetId: bv8)

  /** `parse_ext_can_id`: bits 28-24, 23-8 and 7-0. */
  function ParseExtCanId(extId: bv32): (e: ExtId)
    ensures e.commType < 32
  {
    ExtId(((extId >> 24) & 0x1F) as bv8, ((extId >> 8) & 0xFFFF) as bv16, (extId & 0xFF) as bv8)
  }

  /** `make_ext_can_id`: the id always fits in 29 bits, and parsing it gives the fields back, with
      a comm type of 32 or more reduced modulo 32. */
  function MakeExtCanId(commType: bv8, dataArea2: bv16, targetId: bv8): (id: bv32)
    ensures id < 0x2000_0000
    ensures ParseExtCanId(id) == ExtId(commType % 32, dataArea2, targetId)
  {
    ((commType as bv32 & 0x1F) << 24) | (dataArea2 as bv32 << 8) | targetId as bv32
  }

  /** Every 29-bit id is the one built from its own parsed fields. */
  lemma ExtIdRebuild(extId: bv32)
    requires extId < 0x2000_0000
    ensures var e := ParseExtCanId(extId); MakeExtCanId(e.commType, e.dataArea2, e.targetId) == extId
  {
  }

  // ---------------------------------------------------------------------------------------
  // Feedback frames

  /** Bit widths of the quantised fields: MIT command-1 feedback packs velocity and torque in
      12 bits, private-protocol type-2 feedback uses 16 bits for every field. */
  datatype Resolution = Mit12 | Private16

  /** `MotorFeedback` with the quantised integers in place of the floats they scale to. */
  datatype MotorFeedback = MotorFeedback(
    motorId: bv8, angleRaw: bv16, velocityRaw: bv16, torqueRaw: bv16, temperatureRaw: bv16,
    resolution: Resolution)

  /** `decode_feedback`: MIT response command 1. */
  function DecodeFeedback(data: Data8): (fb: MotorFeedback)
    ensures fb.motorId == data[0] && fb.resolution == Mit12
    ensures fb.velocityRaw < 0x1000 && fb.torqueRaw < 0x1000
  {
    MotorFeedback(
      data[0],
      BE16(data[1], data[2]),
      (data[3] as bv16 << 4) | (data[4] as bv16 >> 4),
      ((data[4] & 0x0F) as bv16 << 8) | data[5] as bv16,
      BE16(data[6], data[7]),
      Mit12)
  }

  /** The motor-side packing of command-1 feedback, as the decoder test builds it. */
  function FeedbackData(motorId: bv8, angle: bv16, velocity: bv16, torque: bv16, temperature: bv16): Data8 {
    [motorId, (angle >> 8) as bv8, (angle & 0xFF) as bv8,
     ((velocity >> 4) & 0xFF) as bv8,
     (((velocity & 0xF) << 4) as bv8) | (((torque >> 8) & 0xF) as bv8),
     (torque & 0xFF) as bv8,
     (temperature >> 8) as bv8, (temperature & 0xFF) as bv8]
  }

  /** Decoding recovers every field the motor packed, given 12-bit velocity and torque. */
  lemma DecodeFeedbackRoundTrip(motorId: bv8, angle: bv16, velocity: bv16, torque: bv16, temperature: bv16)
    requires velocity < 0x1000 && torque < 0x1000
    ensures DecodeFeedback(FeedbackData(motorId, angle, velocity, torque, temperature))
         == MotorFeedback(motorId, angle, velocity, torque, temperature, Mit12)
  {
  }

  /** `PrivateFeedback` with the quantised integers in place of the floats they scale to. */
  datatype PrivateFeedback = PrivateFeedback(
    motorId: bv8, modeStatus: bv8, faultBits: bv8,
    angleRaw: bv16, velocityRaw: bv16, torqueRaw: bv16, temperatureRaw: bv16)

  /** The data bytes a private feedback frame carries: four big-endian 16-bit fields. */
  function PrivateFeedbackData(fb: PrivateFeedback): Data8 {
    BytesBE16(fb.angleRaw) + BytesBE16(fb.velocityRaw) + BytesBE16(fb.torqueRaw) + BytesBE16(fb.temperatureRaw)
  }

  /** `decode_private_feedback`: the motor id, fault bits and mode split data area 2 without
      overlap or loss, and the four data fields hold all 8 data bytes. */
  function DecodePrivateFeedback(dataArea2: bv16, data: Data8): (fb: PrivateFeedback)
    ensures fb.modeStatus < 4 && fb.faultBits < 64
    ensures (fb.modeStatus as bv16 << 14) | (fb.faultBits as bv16 << 8) | fb.motorId as bv16 == dataArea2
    ensures PrivateFeedbackData(fb) == data
  {
    PrivateFeedback(
      (dataArea2 & 0xFF) as bv8,
      ((dataArea2 >> 14) & 0x03) as bv8,
      ((dataArea2 >> 8) & 0x3F) as bv8,
      BE16(data[0], data[1]), BE16(data[2], data[3]), BE16(data[4], data[5]), BE16(data[6], data[7]))
  }

  /** The command-1 shaped event the gateway emits for a type-2 frame: same quantities, 16-bit
      resolution. */
  function FeedbackOfPrivate(fb: PrivateFeedback): MotorFeedback {
    MotorFeedback(fb.motorId, fb.angleRaw, fb.velocityRaw, fb.torqueRaw, fb.temperatureRaw, Private16)
  }

  // ---------------------------------------------------------------------------------------
  // Fault word

  datatype FaultEntry = FaultEntry(bit: nat, name: string)

  /** The fault table of `decode_faults`, in its order. */
  const FAULT_TABLE: seq<FaultEntry> := [
    FaultEntry(0, FAULT_OVER_TEMPERATURE),
    FaultEntry(1, FAULT_DRIVER_CHIP),
    FaultEntry(2, FAULT_UNDER_VOLTAGE),
    FaultEntry(3, FAULT_OVER_VOLTAGE),
    FaultEntry(4, FAULT_PHASE_B),
    FaultEntry(5, FAULT_PHASE_C),
    FaultEntry(7, FAULT_ENCODER),
    FaultEntry(8, FAULT_HARDWARE_ID),
    FaultEntry(9, FAULT_POSITION_INIT),
    FaultEntry(14, FAULT_STALL),
    FaultEntry(16, FAULT_PHASE_A)
  ]

  const FAULT_OVER_TEMPERATURE: string := "Over-temperature (>145\U{B0}C)"
  const FAULT_DRIVER_CHIP: string := "Driver chip fault"
  const FAULT_UNDER_VOLTAGE: string := "Under-voltage (<12V)"
  const FAULT_OVER_VOLTAGE: string := "Over-voltage (>60V)"
  const FAULT_PHASE_B: string := "Phase B overcurrent"
  const FAULT_PHASE_C: string := "Phase C overcurrent"
  const FAULT_ENCODER: string := "Encoder not calibrated"
  const FAULT_HARDWARE_ID: string := "Hardware identification fault"
  const FAULT_POSITION_INIT: string := "Position init fault"
  const FAULT_STALL: string := "Stall overload protection"
  const FAULT_PHASE_A: string := "Phase A overcurrent"

  /** The bits the table names: 0-5, 7-9, 14 and 16. */
  const FAULT_MASK: bv32 := 0x143BF

  predicate TableBits(table: seq<FaultEntry>) {
    forall k :: 0 <= k < |table| ==> table[k].bit < 32
  }

  predicate BitSet(w: bv32, bit: nat)
    requires bit < 32
  {
    w & (1 << bit) != 0
  }

  /** `a` is `b` with some elements dropped, order kept. */
  predicate SubsequenceOf(a: seq<string>, b: seq<string>)
    decreases |b|
  {
    a == [] || (b != [] && ((a[0] == b[0] && SubsequenceOf(a[1..], b[1..])) || SubsequenceOf(a, b[1..])))
  }

  function Names(table: seq<FaultEntry>): seq<string> {
    seq(|table|, k requires 0 <= k < |table| => table[k].name)
  }

  /** The filter loop of `decode_faults`: the names of the entries whose bit is set in `w`, in
      table order. */
  function FaultNames(w: bv32, table: seq<FaultEntry>): (names: seq<string>)
    requires TableBits(table)
    ensures |names| <= |table|
  {
    if table == [] then []
    else (if BitSet(w, table[0].bit) then [table[0].name] else []) + FaultNames(w, table[1..])
  }

  /** A name is listed iff some table entry with that name has its bit set. */
  lemma {:induction false} FaultNamesMembers(w: bv32, table: seq<FaultEntry>)
    requires TableBits(table)
    ensures forall name :: name in FaultNames(w, table) <==>
      exists k :: 0 <= k < |table| && table[k].name == name && BitSet(w, table[k].bit)
  {
    if table != [] {
      FaultNamesMembers(w, table[1..]);
      assert forall k :: 1 <= k < |table| ==> table[k] == table[1..][k - 1];
    }
  }

  /** The names are listed in table order. */
  lemma {:induction false} FaultNamesOrdered(w: bv32, table: seq<FaultEntry>)
    requires TableBits(table)
    ensures SubsequenceOf(FaultNames(w, table), Names(table))
  {
    if table != [] {
      FaultNamesOrdered(w, table[1..]);
      var rest := FaultNames(w, table[1..]);
      assert Names(table)[1..] == Names(table[1..]);
      if BitSet(w, table[0].bit) {
        assert ([table[0].name] + rest)[1..] == rest;
      } else {
        assert [] + rest == rest;
      }
    }
  }

  datatype FaultStatus = FaultStatus(raw: bv32, faults: seq<string>)

  /** `decode_faults`: the raw word is kept, and the names listed are exactly those of table
      entries whose bit is set. */
  function DecodeFaults(faultWord: bv32): (fs: FaultStatus)
    ensures fs.raw == faultWord
    ensures forall name :: name in fs.faults <==>
      exists k :: 0 <= k < |FAULT_TABLE| && FAULT_TABLE[k].name == name && BitSet(faultWord, FAULT_TABLE[k].bit)
    ensures SubsequenceOf(fs.faults, Names(FAULT_TABLE))
  {
    FaultNamesMembers(faultWord, FAULT_TABLE);
    FaultNamesOrdered(faultWord, FAULT_TABLE);
    FaultStatus(faultWord, FaultNames(faultWord, FAULT_TABLE))
  }

  lemma {:induction false} FaultNamesMasked(w: bv32, table: seq<FaultEntry>)
    requires TableBits(table)
    requires forall k :: 0 <= k < |table| ==> FAULT_MASK & (1 << table[k].bit) != 0
    ensures FaultNames(w & FAULT_MASK, table) == FaultNames(w, table)
  {
    if table != [] {
      var b := table[0].bit;
      assert (w & FAULT_MASK) & (1 << b) == w & ((1 << b) & FAULT_MASK);
      FaultNamesMasked(w, table[1..]);
    }
  }

  /** Bits that the table does not name (6, 10-13, 15 and 17-31) never change the fault list. */
  lemma FaultsIgnoreUnlistedBits(w: bv32)
    ensures DecodeFaults(w & FAULT_MASK).faults == DecodeFaults(w).faults
  {
    MaskCoversTable();
    FaultNamesMasked(w, FAULT_TABLE);
  }

  /** Every bit the table names is in the mask. */
  lemma MaskCoversTable()
    ensures TableBits(FAULT_TABLE)
    ensures forall k :: 0 <= k < |FAULT_TABLE| ==> FAULT_MASK & (1 << FAULT_TABLE[k].bit) != 0
  {
  }

  // ---------------------------------------------------------------------------------------
  // MIT standard-frame commands

  /** The special MIT commands: six 0xFF bytes, then an argument or selector byte, then an
      opcode byte. */
  datatype MitSpecial =
    | Enable
    | Stop
    | SetZero
    | ClearOrReadFault(fCmd: bv8)
    | SetMode(mode: bv8)
    | ChangeMotorId(newId: bv8)
    | ChangeProtocol(protocol: bv8)
    | ChangeMasterId(newMasterId: bv8)

  /** `cmd_enable`, `cmd_stop`, `cmd_set_zero`, `cmd_clear_or_read_fault`, `cmd_set_mode`,
      `cmd_change_motor_id`, `cmd_change_protocol` and `cmd_change_master_id`. */
  function MitSpecialData(cmd: MitSpecial): (d: Data8)
    ensures forall i :: 0 <= i < 6 ==> d[i] == 0xFF
  {
    var ff: seq<bv8> := [0xFF, 0xFF, 0xFF, 0xFF, 0xFF, 0xFF];
    match cmd
    case Enable => ff + [0xFF, 0xFC]
    case Stop => ff + [0xFF, 0xFD]
    case SetZero => ff + [0xFF, 0xFE]
    case ClearOrReadFault(f) => ff + [f, 0xFB]
    case SetMode(m) => ff + [m, 0xFC]
    case ChangeMotorId(n) => ff + [n, 0xFA]
    case ChangeProtocol(p) => ff + [p, 0xFD]
    case ChangeMasterId(n) => ff + [0xFD, n]
  }

  /** Two special commands share their bytes only when they are the same command, or when the
      argument byte equals the 0xFF that the argument-less command carries (enable and set-mode
      0xFF, stop and change-protocol 0xFF), or in the overlap of change-master-id with the
      opcodes of the others. In particular enable differs from set-mode 0 and stop differs from
      change-protocol 2 in byte 6. */
  lemma MitSpecialCollisions(a: MitSpecial, b: MitSpecial)
    requires MitSpecialData(a) == MitSpecialData(b)
    requires !a.ChangeMasterId? && !b.ChangeMasterId?
    ensures a == b
      || {a, b} == {Enable, SetMode(0xFF)}
      || {a, b} == {Stop, ChangeProtocol(0xFF)}
  {
    var da := MitSpecialData(a);
    var db := MitSpecialData(b);
    assert da[6] == db[6] && da[7] == db[7];
  }

  datatype MitFields = MitFields(position: bv16, velocity: bv16, kp: bv16, kd: bv16, torque: bv16)

  /** The bit packing of `cmd_mit_params`, from the already quantised fields: position in 16
      bits, velocity, kp, kd and torque in 12 bits each. */
  function CmdMitParams(f: MitFields): (d: Data8)
    ensures f.velocity < 0x1000 && f.kp < 0x1000 && f.kd < 0x1000 && f.torque < 0x1000 ==>
      UnpackMitParams(d) == f
  {
    [(f.position >> 8) as bv8,
     (f.position & 0xFF) as bv8,
     ((f.velocity >> 4) & 0xFF) as bv8,
     (((f.velocity & 0xF) << 4) as bv8) | (((f.kp >> 8) & 0xF) as bv8),
     (f.kp & 0xFF) as bv8,
     ((f.kd >> 4) & 0xFF) as bv8,
     (((f.kd & 0xF) << 4) as bv8) | (((f.torque >> 8) & 0xF) as bv8),
     (f.torque & 0xFF) as bv8]
  }

  /** The unpacking the round-trip test applies to MIT command data: the four 12-bit slots
      read back within 12 bits. */
  function UnpackMitParams(d: Data8): (f: MitFields)
    ensures f.velocity < 0x1000 && f.kp < 0x1000 && f.kd < 0x1000 && f.torque < 0x1000
  {
    MitFields(
      BE16(d[0], d[1]),
      (d[2] as bv16 << 4) | (d[3] as bv16 >> 4),
      ((d[3] & 0x0F) as bv16 << 8) | d[4] as bv16,
      (d[5] as bv16 << 4) | (d[6] as bv16 >> 4),
      ((d[6] & 0x0F) as bv16 << 8) | d[7] as bv16)
  }

  /** The packing loses nothing: any 8 data bytes, unpacked and packed again, come back. */
  lemma MitParamsRepack(d: Data8)
    ensures CmdMitParams(UnpackMitParams(d)) == d
  {
  }

  // ---------------------------------------------------------------------------------------
  // Private-protocol commands

  /** The requests of the `priv_cmd_*` builders. Float parameter writes take the IEEE-754 bit
      pattern of the value, whose little-endian bytes are those of `f32::to_le_bytes`. */
  datatype PrivRequest =
    | GetDeviceId
    | PrivEnable
    | PrivStop(clearFault: bool)
    | PrivSetZero
    | SetCanId(newId: bv8)
    | ParamRead(index: bv16)
    | ParamWriteU8(index: bv16, valueU8: bv8)
    | ParamWriteU16(index: bv16, valueU16: bv16)
    | ParamWriteU32(index: bv16, valueU32: bv32)
    | ParamWriteF32(index: bv16, bits: bv32)
    | FaultFeedback
    | SaveParams
    | ChangeBaud(baudCode: bv8)
    | ActiveReport(enable: bv8)
    | PrivChangeProtocol(protocol: bv8)
    | ReadVersion

  function CommTypeOf(req: PrivRequest): bv8 {
    match req
    case GetDeviceId => 0
    case PrivEnable => 3
    case PrivStop(_) => 4
    case PrivSetZero => 6
    case SetCanId(_) => 7
    case ParamRead(_) => 0x11
    case ParamWriteU8(_, _) => 0x12
    case ParamWriteU16(_, _) => 0x12
    case ParamWriteU32(_, _) => 0x12
    case ParamWriteF32(_, _) => 0x12
    case FaultFeedback => 0x15
    case SaveParams => 0x16
    case ChangeBaud(_) => 0x17
    case ActiveReport(_) => 0x18
    case PrivChangeProtocol(_) => 0x19
    case ReadVersion => 0x04
  }

  /** The LE index in bytes 0-1 followed by six zero bytes, as every parameter command starts. */
  function IndexData(index: bv16): Data8 {
    [(index & 0xFF) as bv8, (index >> 8) as bv8, 0, 0, 0, 0, 0, 0]
  }

  function PrivData(req: PrivRequest): Data8 {
    match req
    case GetDeviceId => [0, 0, 0, 0, 0, 0, 0, 0]
    case PrivEnable => [0, 0, 0, 0, 0, 0, 0, 0]
    case PrivStop(clear) => [if clear then 1 else 0, 0, 0, 0, 0, 0, 0, 0]
    case PrivSetZero => [1, 0, 0, 0, 0, 0, 0, 0]
    case SetCanId(_) => [0, 0, 0, 0, 0, 0, 0, 0]
    case ParamRead(index) => IndexData(index)
    case ParamWriteU8(index, v) => IndexData(index)[4 := v]
    case ParamWriteU16(index, v) => IndexData(index)[4 := (v & 0xFF) as bv8][5 := (v >> 8) as bv8]
    case ParamWriteU32(index, v) => IndexData(index)[..4] + BytesLE32(v)
    case ParamWriteF32(index, bits) => IndexData(index)[..4] + BytesLE32(bits)
    case FaultFeedback => [0, 0, 0, 0, 0, 0, 0, 0]
    case SaveParams => [1, 2, 3, 4, 5, 6, 7, 8]
    case ChangeBaud(code) => [1, 2, 3, 4, 5, 6, code, 0]
    case ActiveReport(enable) => [1, 2, 3, 4, 5, 6, enable, 0]
    case PrivChangeProtocol(p) => [1, 2, 3, 4, 5, 6, p, 0]
    case ReadVersion => [0, 0xC4, 0, 0, 0, 0, 0, 0]
  }

  datatype ExtCommand = ExtCommand(extId: bv32, data: Data8)

  /** The `priv_cmd_*` builders: the comm type of the request, the motor as target, and the master
      id in the high byte of data area 2 (set-can-id puts the new id there and the master id in
      the low byte instead). */
  function PrivCommand(masterId: bv8, motorId: bv8, req: PrivRequest): (c: ExtCommand)
    ensures ParseExtCanId(c.extId).commType == CommTypeOf(req)
    ensures ParseExtCanId(c.extId).targetId == motorId
    ensures !req.SetCanId? ==> ParseExtCanId(c.extId).dataArea2 == (masterId as bv16) << 8
    ensures req.SetCanId? ==> ParseExtCanId(c.extId).dataArea2 == ((req.newId as bv16) << 8) | masterId as bv16
  {
    var dataArea2 := if req.SetCanId? then (req.newId as bv16 << 8) | masterId as bv16 else masterId as bv16 << 8;
    ExtCommand(MakeExtCanId(CommTypeOf(req), dataArea2, motorId), PrivData(req))
  }

  /** The 32-bit word a parameter write carries, zero-extended from its width. */
  function WrittenWord(req: PrivRequest): bv32
    requires req.ParamWriteU8? || req.ParamWriteU16? || req.ParamWriteU32? || req.ParamWriteF32?
  {
    match req
    case ParamWriteU8(_, v) => v as bv32
    case ParamWriteU16(_, v) => v as bv32
    case ParamWriteU32(_, v) => v
    case ParamWriteF32(_, bits) => bits
  }

  /** A parameter read carries the index little-endian in bytes 0-1 and zero elsewhere. */
  lemma ParamReadLayout(masterId: bv8, motorId: bv8, index: bv16)
    ensures var d := PrivCommand(masterId, motorId, ParamRead(index)).data;
      BE16(d[1], d[0]) == index && d[2..] == [0, 0, 0, 0, 0, 0]
  {
  }

  lemma WriteU8Bytes(index: bv16, v: bv8)
    ensures PrivData(ParamWriteU8(index, v))[4..] == BytesLE32(v as bv32)
  {
    assert PrivData(ParamWriteU8(index, v))[4..] == [v, 0, 0, 0];
  }

  lemma WriteU16Bytes(index: bv16, v: bv16)
    ensures PrivData(ParamWriteU16(index, v))[4..] == BytesLE32(v as bv32)
  {
    assert PrivData(ParamWriteU16(index, v))[4..] == [(v & 0xFF) as bv8, (v >> 8) as bv8, 0, 0];
  }

  lemma WriteValueBytes(req: PrivRequest)
    requires req.ParamWriteU8? || req.ParamWriteU16? || req.ParamWriteU32? || req.ParamWriteF32?
    ensures PrivData(req)[4..] == BytesLE32(WrittenWord(req))
  {
    match req
    case ParamWriteU8(index, v) => WriteU8Bytes(index, v);
    case ParamWriteU16(index, v) => WriteU16Bytes(index, v);
    case ParamWriteU32(index, v) =>
    case ParamWriteF32(index, v) =>
  }

  /** A parameter write carries the index little-endian in bytes 0-1, zero in bytes 2-3, and the
      value little-endian in bytes 4-7, every byte past the value's width being zero. */
  lemma ParamWriteLayout(masterId: bv8, motorId: bv8, req: PrivRequest)
    requires req.ParamWriteU8? || req.ParamWriteU16? || req.ParamWriteU32? || req.ParamWriteF32?
    ensures var d := PrivCommand(masterId, motorId, req).data;
      BE16(d[1], d[0]) == req.index && d[2] == 0 && d[3] == 0 && d[4..] == BytesLE32(WrittenWord(req))
  {
    WriteValueBytes(req);
    WriteIndexBytes(req);
    IndexDataBytes(req.index);
  }

  lemma WriteIndexBytes(req: PrivRequest)
    requires req.ParamWriteU8? || req.ParamWriteU16? || req.ParamWriteU32? || req.ParamWriteF32?
    ensures PrivData(req)[..4] == IndexData(req.index)[..4]
  {
    match req
    case ParamWriteU8(index, v) =>
    case ParamWriteU16(index, v) =>
    case ParamWriteU32(index, v) =>
    case ParamWriteF32(index, v) =>
  }

  lemma IndexDataBytes(index: bv16)
    ensures var d := IndexData(index); BE16(d[1], d[0]) == index && d[2] == 0 && d[3] == 0
  {
  }

  // ---------------------------------------------------------------------------------------
  // Parameter table and read response

  datatype ParamType = U8 | U16 | U32 | I16 | F32 | Str
  datatype ParamAccess = R | W | RW

  datatype ParamDef = ParamDef(
    index: bv16, name: string, desc: string, paramType: ParamType, access: ParamAccess, defaultStr: string)

  /** `WRITABLE_PARAMS`, in order. */
  const WRITABLE_PARAMS: seq<ParamDef> := [
    ParamDef(0x7005, "run_mode", "Run mode (0=MIT,1=PP,2=Speed,3=Current,5=CSP)", U8, RW, "0"),
    ParamDef(0x7006, "iq_ref", "Current mode Iq command (A)", F32, RW, "0"),
    ParamDef(0x700A, "spd_ref", "Speed command (rad/s)", F32, RW, "0"),
    ParamDef(0x700B, "limit_torque", "Torque limit (N.m)", F32, RW, "14"),
    ParamDef(0x7010, "cur_kp", "Current loop Kp", F32, RW, "0.125"),
    ParamDef(0x7011, "cur_ki", "Current loop Ki", F32, RW, "0.0158"),
    ParamDef(0x7014, "cur_filt_gain", "Current filter coefficient (0~1)", F32, RW, "0.1"),
    ParamDef(0x7016, "loc_ref", "Position command (rad)", F32, RW, "0"),
    ParamDef(0x7017, "limit_spd", "CSP speed limit (rad/s)", F32, RW, "33"),
    ParamDef(0x7018, "limit_cur", "Current limit (A)", F32, RW, "16"),
    ParamDef(0x701E, "loc_kp", "Position loop Kp", F32, RW, "30"),
    ParamDef(0x701F, "spd_kp", "Speed loop Kp", F32, RW, "5"),
    ParamDef(0x7020, "spd_ki", "Speed loop Ki", F32, RW, "0.02"),
    ParamDef(0x7021, "spd_filt_gain", "Speed filter coefficient (0~1)", F32, RW, "0.05"),
    ParamDef(0x7022, "acc_rad", "Speed mode acceleration (rad/s^2)", F32, RW, "100"),
    ParamDef(0x7024, "vel_max", "PP mode velocity (rad/s)", F32, RW, "10"),
    ParamDef(0x7025, "acc_set", "PP mode acceleration (rad/s^2)", F32, RW, "10"),
    ParamDef(0x7026, "EPScan_time", "Report interval (1=10ms, +1 adds 5ms)", U16, RW, "1"),
    ParamDef(0x7028, "canTimeout", "CAN timeout (20000=1s, 0=disabled)", U32, RW, "0"),
    ParamDef(0x7029, "zero_sta", "Zero mode (0=0~2pi, 1=-pi~pi)", U8, RW, "0"),
    ParamDef(0x702A, "damper", "Damper switch (0=on, 1=off)", U8, RW, "0"),
    ParamDef(0x702B, "add_offset", "Zero offset (rad)", F32, RW, "0")
  ]

  /** `READONLY_PARAMS`, in order. */
  const READONLY_PARAMS: seq<ParamDef> := [
    ParamDef(0x3005, "mcuTemp", "MCU temperature (*10)", I16, R, ""),
    ParamDef(0x3006, "motorTemp", "Motor NTC temperature (*10)", I16, R, ""),
    ParamDef(0x3007, "vBus_mv", "Bus voltage (mV)", U16, R, ""),
    ParamDef(0x300C, "VBUS", "Bus voltage (V)", F32, R, ""),
    ParamDef(0x300E, "cmdIq", "Iq command (A)", F32, R, ""),
    ParamDef(0x3015, "modPos", "Single-turn angle (rad)", F32, R, ""),
    ParamDef(0x3016, "mechPos", "Multi-turn position (rad)", F32, R, ""),
    ParamDef(0x3017, "mechVel", "Load-side velocity (rad/s)", F32, R, ""),
    ParamDef(0x301E, "iqf", "Filtered Iq (A)", F32, R, ""),
    ParamDef(0x3022, "faultSta", "Fault status word", U32, R, ""),
    ParamDef(0x302C, "torque_fdb", "Torque feedback (N.m)", F32, R, "")
  ]

  /** `ParamReadResponse` without the float reading of the value bytes. */
  datatype ParamReadResponse = ParamReadResponse(index: bv16, success: bool, valueBytes: seq<bv8>, valueU32: bv32)

  /** `decode_param_read_response`: the index is the LE word in bytes 0-1, the value is bytes
      4-7 both raw and as a LE word, and the read succeeded iff bits 8-15 of data area 2 are
      clear. */
  function DecodeParamReadResponse(dataArea2: bv16, data: Data8): (r: ParamReadResponse)
    ensures r.success <==> dataArea2 < 0x100
    ensures r.valueBytes == data[4..8] && BytesLE32(r.valueU32) == r.valueBytes
    ensures IndexData(r.index)[..2] == data[..2]
  {
    LE32Injective(data[4..8]);
    ParamReadResponse(
      BE16(data[1], data[0]),
      ((dataArea2 >> 8) & 0xFF) == 0,
      data[4..8],
      LE32(data[4..8]))
  }

  /** A write command's data, read back as a response, gives the written index and word. */
  lemma ParamWriteReadsBack(masterId: bv8, motorId: bv8, req: PrivRequest, dataArea2: bv16)
    requires req.ParamWriteU8? || req.ParamWriteU16? || req.ParamWriteU32? || req.ParamWriteF32?
    ensures var r := DecodeParamReadResponse(dataArea2, PrivCommand(masterId, motorId, req).data);
      r.index == req.index && r.valueU32 == WrittenWord(req)
  {
    var d := PrivCommand(masterId, motorId, req).data;
    ParamWriteLayout(masterId, motorId, req);
    assert d[4..8] == d[4..];
  }
}
