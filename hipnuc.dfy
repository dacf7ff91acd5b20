/** The HiPNUC binary protocol decoder of the IMU link: the CRC-16 it checks, the HI91 packet it
    extracts, and the byte-at-a-time state machine over a 512-byte frame buffer.

    A frame is `5A A5 len_lo len_hi crc_lo crc_hi payload...`; the CRC is CRC-16/XMODEM
    (polynomial 0x1021, initial value 0, no reflection, no final XOR) over bytes 0-3 followed by
    the payload. */
module Hipnuc {
  import opened Wrappers

  const CHSYNC1: bv8 := 0x5A
  const CHSYNC2: bv8 := 0xA5
  const CH_HDR_SIZE: nat := 6
  const HIPNUC_MAX_RAW_SIZE: nat := 512
  const FRAME_TAG_HI91: bv8 := 0x91
  const HI91_SIZE: nat := 76

  function LE16(lo: bv8, hi: bv8): bv16 {
    lo as bv16 | (hi as bv16 << 8)
  }

  /** A little-endian `u16` length field widened to `usize`. */
  function LengthField(lo: bv8, hi: bv8): (n: nat)
    ensures n < 0x1_0000
  {
    lo as nat + 256 * hi as nat
  }

  // ---------------------------------------------------------------------------------------
  // CRC-16

  /** One round of the inner loop of `crc16_update`: shift left, and xor in the polynomial
      when the bit shifted out was set. */
  function CrcRound(crc: bv16): bv16 {
    if crc & 0x8000 != 0 then (crc << 1) ^ 0x1021 else crc << 1
  }

  /** Eight shift-and-conditionally-xor rounds of the inner loop of `crc16_update`. */
  function CrcRounds(crc: bv16, rounds: nat): bv16
    decreases rounds
  {
    if rounds == 0 then crc
    else CrcRounds(CrcRound(crc), rounds - 1)
  }

  /** One byte of `crc16_update`: xor it into the high byte, then eight rounds. */
  function CrcByte(crc: bv16, byte: bv8): bv16 {
    CrcRounds(crc ^ (byte as bv16 << 8), 8)
  }

  /** The CRC of `data` continued from `crc`, byte by byte from the front. */
  function Crc16(crc: bv16, data: seq<bv8>): bv16
    decreases |data|
  {
    if data == [] then crc else Crc16(CrcByte(crc, data[0]), data[1..])
  }

  /** `crc16_update`: the loop over the bytes. */
  method Crc16Update(crc: bv16, data: seq<bv8>) returns (r: bv16)
    ensures r == Crc16(crc, data)
  {
    r := crc;
    for i := 0 to |data|
      invariant Crc16(r, data[i..]) == Crc16(crc, data)
    {
      assert data[i..][1..] == data[i + 1..];
      r := CrcByteUpdate(r, data[i]);
    }
  }

  /** The body of the loop of `crc16_update`: the byte into the high half, then eight
      shift-and-xor rounds. */
  method CrcByteUpdate(crc: bv16, byte: bv8) returns (r: bv16)
    ensures r == CrcByte(crc, byte)
  {
    r := crc ^ (byte as bv16 << 8);
    ghost var start := r;
    for k := 0 to 8
      invariant CrcRounds(r, 8 - k) == CrcRounds(start, 8)
    {
      var temp := r << 1;
      if r & 0x8000 != 0 {
        r := temp ^ 0x1021;
      } else {
        r := temp;
      }
    }
  }

  /** The CRC continues over a concatenation: feeding `a` then `b` is feeding `a + b`. */
  lemma {:induction false} Crc16Concat(crc: bv16, a: seq<bv8>, b: seq<bv8>)
    ensures Crc16(crc, a + b) == Crc16(Crc16(crc, a), b)
    decreases |a|
  {
    if a != [] {
      assert (a + b)[1..] == a[1..] + b;
      Crc16Concat(CrcByte(crc, a[0]), a[1..], b);
    } else {
      assert a + b == b;
    }
  }

  /** No data leaves the CRC as it was. */
  lemma Crc16Empty(crc: bv16)
    ensures Crc16(crc, []) == crc
  {
  }

  /** The standard check value of CRC-16/XMODEM: the CRC of the ASCII digits "123456789". */
  lemma Crc16CheckValue()
    ensures Crc16(0, [0x31, 0x32, 0x33, 0x34, 0x35, 0x36, 0x37, 0x38, 0x39]) == 0x31C3
  {
    assert CrcByte(0, 0x31) == 0x2672;
    assert CrcByte(0x2672, 0x32) == 0x20B5;
    assert CrcByte(0x20B5, 0x33) == 0x9752;
    assert CrcByte(0x9752, 0x34) == 0xD789;
    assert CrcByte(0xD789, 0x35) == 0x546C;
    assert CrcByte(0x546C, 0x36) == 0x20E4;
    assert CrcByte(0x20E4, 0x37) == 0x86D6;
    assert CrcByte(0x86D6, 0x38) == 0x9015;
    assert CrcByte(0x9015, 0x39) == 0x31C3;
  }

  /** One shift-and-xor round loses nothing: the polynomial's low bit records the bit shifted
      out, so the rounds, and with them each byte's CRC step, are one-to-one. */
  lemma {:induction false} CrcRoundsInjective(a: bv16, b: bv16, rounds: nat)
    requires CrcRounds(a, rounds) == CrcRounds(b, rounds)
    ensures a == b
    decreases rounds
  {
    if rounds > 0 {
      CrcRoundsInjective(CrcRound(a), CrcRound(b), rounds - 1);
      CrcRoundInjective(a, b);
    }
  }

  lemma CrcRoundInjective(a: bv16, b: bv16)
    requires CrcRound(a) == CrcRound(b)
    ensures a == b
  {
    if a & 0x8000 != 0 && b & 0x8000 == 0 {
      RoundMixed(a, b);
    } else if a & 0x8000 == 0 && b & 0x8000 != 0 {
      RoundMixed(b, a);
    } else if a & 0x8000 != 0 {
      RoundBothSet(a, b);
      ShiftOutInjective(a, b);
    } else {
      RoundNeitherSet(a, b);
      ShiftOutInjective(a, b);
    }
  }

  /** The low bit of a round's result is the bit it shifted out. */
  lemma RoundMixed(a: bv16, b: bv16)
    requires a & 0x8000 != 0 && b & 0x8000 == 0
    ensures CrcRound(a) != CrcRound(b)
  {
  }

  lemma RoundBothSet(a: bv16, b: bv16)
    requires a & 0x8000 != 0 && b & 0x8000 != 0 && CrcRound(a) == CrcRound(b)
    ensures a << 1 == b << 1
  {
  }

  lemma RoundNeitherSet(a: bv16, b: bv16)
    requires a & 0x8000 == 0 && b & 0x8000 == 0 && CrcRound(a) == CrcRound(b)
    ensures a << 1 == b << 1
  {
  }

  lemma ShiftOutInjective(a: bv16, b: bv16)
    requires a << 1 == b << 1 && (a & 0x8000 != 0) == (b & 0x8000 != 0)
    ensures a == b
  {
  }

  /** Two different bytes take the same CRC to different values. */
  lemma CrcByteInjective(crc: bv16, x: bv8, y: bv8)
    requires CrcByte(crc, x) == CrcByte(crc, y)
    ensures x == y
  {
    CrcRoundsInjective(crc ^ (x as bv16 << 8), crc ^ (y as bv16 << 8), 8);
    HighByteInjective(crc, x, y);
  }

  lemma HighByteInjective(crc: bv16, x: bv8, y: bv8)
    requires crc ^ (x as bv16 << 8) == crc ^ (y as bv16 << 8)
    ensures x == y
  {
  }


  /** The CRC continued over the same data from two different values stays different. */
  lemma {:induction false} Crc16Injective(a: bv16, b: bv16, data: seq<bv8>)
    requires Crc16(a, data) == Crc16(b, data)
    ensures a == b
    decreases |data|
  {
    if data != [] {
      Crc16Injective(CrcByte(a, data[0]), CrcByte(b, data[0]), data[1..]);
      CrcRoundsInjective(a ^ (data[0] as bv16 << 8), b ^ (data[0] as bv16 << 8), 8);
    }
  }

  /** The CRC of data with one byte in the middle: the CRC up to it, that byte's step, then
      the rest. */
  lemma Crc16Around(crc: bv16, before: seq<bv8>, x: bv8, after: seq<bv8>)
    ensures Crc16(crc, before + [x] + after) == Crc16(CrcByte(Crc16(crc, before), x), after)
  {
    assert before + [x] + after == before + ([x] + after);
    Crc16Concat(crc, before, [x] + after);
    assert ([x] + after)[1..] == after;
  }

  /** A single corrupted byte always changes the CRC, wherever it sits. */
  lemma SingleByteErrorDetected(crc: bv16, before: seq<bv8>, x: bv8, y: bv8, after: seq<bv8>)
    requires x != y
    ensures Crc16(crc, before + [x] + after) != Crc16(crc, before + [y] + after)
  {
    var mid := Crc16(crc, before);
    Crc16Around(crc, before, x, after);
    Crc16Around(crc, before, y, after);
    if Crc16(CrcByte(mid, x), after) == Crc16(CrcByte(mid, y), after) {
      Crc16Injective(CrcByte(mid, x), CrcByte(mid, y), after);
      CrcByteInjective(mid, x, y);
      assert false;
    }
  }

  // ---------------------------------------------------------------------------------------
  // HI91 packet

  /** `Hi91Data` without its floating-point fields: the integer fields and the 76-byte record
      the floats are read from (acceleration, gyroscope, magnetometer, Euler angles, quaternion
      and air pressure, little-endian IEEE-754 at their fixed offsets). */
  datatype Hi91Data = Hi91Data(mainStatus: bv16, temperature: int, systemTime: bv32, record: seq<bv8>)

  /** `data[3] as i8`: the byte read as two's complement. */
  function AsI8(b: bv8): (r: int)
    ensures -128 <= r < 128
    ensures r >= 0 ==> r == b as int
    ensures r < 0 ==> r + 256 == b as int
  {
    if b < 0x80 then b as int else b as int - 256
  }

  /** `parse_hi91`. */
  function ParseHi91(data: seq<bv8>): (r: Option<Hi91Data>)
    ensures r.Some? <==> |data| >= HI91_SIZE && data[0] == FRAME_TAG_HI91
    ensures r.Some? ==> r.value.record == data[..HI91_SIZE] && r.value.temperature == AsI8(data[3])
  {
    if |data| < HI91_SIZE then None
    else if data[0] != FRAME_TAG_HI91 then None
    else
      Some(Hi91Data(
        LE16(data[1], data[2]),
        AsI8(data[3]),
        data[8] as bv32 | (data[9] as bv32 << 8) | (data[10] as bv32 << 16) | (data[11] as bv32 << 24),
        data[..HI91_SIZE]))
  }

  /** `parse_payload`: only a leading HI91 packet with its full 76 bytes is returned; any other
      first tag ends the scan. */
  function ParsePayload(payload: seq<bv8>): (r: Option<Hi91Data>)
    ensures r.Some? <==> |payload| >= HI91_SIZE && payload[0] == FRAME_TAG_HI91
    ensures r.Some? ==> r == ParseHi91(payload)
  {
    if |payload| > 0 && payload[0] == FRAME_TAG_HI91 then
      if HI91_SIZE <= |payload| then ParseHi91(payload) else None
    else None
  }

  /** The HI91 payload of the sample frame the decoder's tests use: 76 bytes, tag 0x91. */
  const SAMPLE_HI91: seq<bv8> := SAMPLE_HI91_HEAD + SAMPLE_HI91_FLOATS

  /** Tag, main status, temperature, reserved bytes and system time of the sample packet. */
  const SAMPLE_HI91_HEAD: seq<bv8> := [
      0x91, 0x08, 0x15, 0x23, 0x09, 0xA2, 0xC4, 0x47, 0x08, 0x15, 0x1C, 0x00]

  /** The floating-point fields of the sample packet. */
  const SAMPLE_HI91_FLOATS: seq<bv8> := [
      0xCC, 0xE8, 0x61, 0xBE, 0x9A, 0x35, 0x56, 0x3E, 0x65, 0xEA, 0x72, 0x3F,
      0x31, 0xD0, 0x7C, 0xBD, 0x75, 0xDD, 0xC5, 0xBB, 0x6B, 0xD7, 0x24, 0xBC,
      0x89, 0x88, 0xFC, 0x40, 0x01, 0x00, 0x6A, 0x41, 0xAB, 0x2A, 0x70, 0xC2,
      0x96, 0xD4, 0x50, 0x41, 0xED, 0x03, 0x43, 0x41, 0x41, 0xF4, 0xF4, 0xC2,
      0xCC, 0xCA, 0xF8, 0xBE, 0x73, 0x6A, 0x19, 0xBE, 0xF0, 0x00, 0x1C, 0x3D,
      0x8D, 0x37, 0x5C, 0x3F]

  /** The sample packet carries temperature 35 and system time 1840392. */
  lemma SamplePacketFields()
    ensures ParseHi91(SAMPLE_HI91).Some?
    ensures ParseHi91(SAMPLE_HI91).value.temperature == 35
    ensures ParseHi91(SAMPLE_HI91).value.systemTime == 1840392
  {
    assert |SAMPLE_HI91_FLOATS| == 64;
    var p := SAMPLE_HI91;
    assert p[0] == 0x91 && p[3] == 0x23;
    assert p[8] == 0x08 && p[9] == 0x15 && p[10] == 0x1C && p[11] == 0x00;
  }

  // ---------------------------------------------------------------------------------------
  // Pure model of the decoder

  datatype DecoderState = WaitSync1 | WaitSync2 | ReadHeader | ReadPayload

  datatype Decoder = Decoder(state: DecoderState, buf: seq<bv8>, nbyte: nat, payloadLen: nat)

  /** The decoder's invariant: the buffer has its fixed size, the byte count stays within the
      frame being read and the frame within the buffer, the sync bytes already accepted sit in
      the buffer, and a payload length is held only while a payload is read. */
  predicate Valid(d: Decoder) {
    |d.buf| == HIPNUC_MAX_RAW_SIZE
    && match d.state
       case WaitSync1 => d.nbyte == 0 && d.payloadLen == 0
       case WaitSync2 => d.nbyte == 1 && d.payloadLen == 0 && d.buf[0] == CHSYNC1
       case ReadHeader =>
         2 <= d.nbyte < CH_HDR_SIZE && d.payloadLen == 0 && d.buf[0] == CHSYNC1 && d.buf[1] == CHSYNC2
       case ReadPayload =>
         CH_HDR_SIZE <= d.nbyte < CH_HDR_SIZE + d.payloadLen <= HIPNUC_MAX_RAW_SIZE
         && d.buf[0] == CHSYNC1 && d.buf[1] == CHSYNC2
         && LengthField(d.buf[2], d.buf[3]) == d.payloadLen
  }

  /** `HipnucDecoder::new`. */
  function Initial(): (d: Decoder)
    ensures Valid(d)
  {
    Decoder(WaitSync1, seq(HIPNUC_MAX_RAW_SIZE, _ => 0), 0, 0)
  }

  /** `reset`: back to waiting for the first sync byte; the buffer is left as it is. */
  function ResetState(d: Decoder): (r: Decoder)
    requires |d.buf| == HIPNUC_MAX_RAW_SIZE
    ensures Valid(r) && r.state == WaitSync1 && r.buf == d.buf
  {
    d.(state := WaitSync1, nbyte := 0, payloadLen := 0)
  }

  /** The CRC field of a complete frame matches the CRC of bytes 0-3 and the payload. */
  predicate CrcMatches(buf: seq<bv8>, payloadLen: nat)
    requires |buf| == HIPNUC_MAX_RAW_SIZE && CH_HDR_SIZE + payloadLen <= HIPNUC_MAX_RAW_SIZE
  {
    Crc16(0, buf[0..4] + buf[CH_HDR_SIZE..CH_HDR_SIZE + payloadLen]) == LE16(buf[4], buf[5])
  }

  /** `validate_and_parse`: a packet comes out of a complete frame iff its CRC matches and its
      payload is a whole HI91 packet. */
  function FrameResult(buf: seq<bv8>, payloadLen: nat): (r: Option<Hi91Data>)
    requires |buf| == HIPNUC_MAX_RAW_SIZE && 1 <= payloadLen && CH_HDR_SIZE + payloadLen <= HIPNUC_MAX_RAW_SIZE
    ensures r.Some? <==>
      CrcMatches(buf, payloadLen) && payloadLen >= HI91_SIZE && buf[CH_HDR_SIZE] == FRAME_TAG_HI91
    ensures r.Some? ==> r == ParseHi91(buf[CH_HDR_SIZE..CH_HDR_SIZE + payloadLen])
  {
    if !CrcMatches(buf, payloadLen) then None
    else ParsePayload(buf[CH_HDR_SIZE..CH_HDR_SIZE + payloadLen])
  }

  /** `input`: one byte through the state machine. Every step keeps the invariant, so every
      buffer write stays inside the 512 bytes. */
  function Step(d: Decoder, b: bv8): (r: (Decoder, Option<Hi91Data>))
    requires Valid(d)
    ensures Valid(r.0)
  {
    match d.state
    case WaitSync1 =>
      if b == CHSYNC1 then (d.(buf := d.buf[0 := b], nbyte := 1, state := WaitSync2), None)
      else (d, None)
    case WaitSync2 =>
      if b == CHSYNC2 then (d.(buf := d.buf[1 := b], nbyte := 2, state := ReadHeader), None)
      else (d.(state := WaitSync1, nbyte := 0), None)
    case ReadHeader =>
      var buf := d.buf[d.nbyte := b];
      var n := d.nbyte + 1;
      if n >= CH_HDR_SIZE then
        var len := LengthField(buf[2], buf[3]);
        if len == 0 || CH_HDR_SIZE + len > HIPNUC_MAX_RAW_SIZE then (ResetState(d.(buf := buf)), None)
        else (d.(buf := buf, nbyte := n, payloadLen := len, state := ReadPayload), None)
      else (d.(buf := buf, nbyte := n), None)
    case ReadPayload =>
      var buf := d.buf[d.nbyte := b];
      var n := d.nbyte + 1;
      if n >= CH_HDR_SIZE + d.payloadLen then (ResetState(d.(buf := buf)), FrameResult(buf, d.payloadLen))
      else (d.(buf := buf, nbyte := n), None)
  }

  /** `input_bytes`: the decoder after feeding `data` in order, and the packets produced, in
      the order they were produced. */
  function Feed(d: Decoder, data: seq<bv8>): (r: (Decoder, seq<Hi91Data>))
    requires Valid(d)
    ensures Valid(r.0)
    decreases |data|
  {
    if data == [] then (d, [])
    else
      var first := Step(d, data[0]);
      var rest := Feed(first.0, data[1..]);
      (rest.0, Emitted(first.1) + rest.1)
  }

  /** The packets a single step contributes. */
  function Emitted(out: Option<Hi91Data>): (s: seq<Hi91Data>)
    ensures out.Some? ==> s == [out.value]
    ensures out.None? ==> s == []
  {
    if out.Some? then [out.value] else []
  }

  /** Feeding a non-empty input is one step followed by the rest. */
  lemma FeedCons(d: Decoder, data: seq<bv8>)
    requires Valid(d) && data != []
    ensures Feed(d, data).0 == Feed(Step(d, data[0]).0, data[1..]).0
    ensures Feed(d, data).1 == Emitted(Step(d, data[0]).1) + Feed(Step(d, data[0]).0, data[1..]).1
  {
  }

  // ---------------------------------------------------------------------------------------
  // Properties of the state machine

  /** While waiting for the first sync byte, every other byte is ignored. */
  lemma Sync1IgnoresNoise(d: Decoder, b: bv8)
    requires Valid(d) && d.state == WaitSync1 && b != CHSYNC1
    ensures Step(d, b) == (d, None)
  {
  }

  /** A byte other than 0xA5 after the first sync byte, another 0x5A included, sends the
      decoder back to waiting for the first sync byte. */
  lemma Sync2MismatchResets(d: Decoder, b: bv8)
    requires Valid(d) && d.state == WaitSync2 && b != CHSYNC2
    ensures Step(d, b).0.state == WaitSync1 && Step(d, b).0.nbyte == 0 && Step(d, b).1 == None
  {
  }

  /** The sixth header byte fixes the payload length from bytes 2-3; a zero length or one that
      would overflow the buffer resets the decoder, any other starts the payload. */
  lemma HeaderLengthCheck(d: Decoder, b: bv8)
    requires Valid(d) && d.state == ReadHeader && d.nbyte == CH_HDR_SIZE - 1
    ensures var len := LengthField(d.buf[2], d.buf[3]); var (d1, out) := Step(d, b);
      out == None
      && (len == 0 || CH_HDR_SIZE + len > HIPNUC_MAX_RAW_SIZE ==> d1.state == WaitSync1 && d1.nbyte == 0)
      && (0 < len && CH_HDR_SIZE + len <= HIPNUC_MAX_RAW_SIZE ==>
            d1.state == ReadPayload && d1.payloadLen == len && d1.nbyte == CH_HDR_SIZE)
  {
  }

  /** The last byte of a frame always resets the decoder, whether the frame validates or not,
      and the packet produced is the frame's result. */
  lemma CompletionResets(d: Decoder, b: bv8)
    requires Valid(d) && d.state == ReadPayload && d.nbyte + 1 == CH_HDR_SIZE + d.payloadLen
    ensures var (d1, out) := Step(d, b);
      d1.state == WaitSync1 && d1.nbyte == 0 && d1.payloadLen == 0
      && out == FrameResult(d.buf[d.nbyte := b], d.payloadLen)
  {
  }

  /** A step yields a packet only on the last byte of a frame whose CRC matches and whose
      payload is a whole HI91 packet. */
  lemma OutputOnlyIfValid(d: Decoder, b: bv8)
    requires Valid(d) && Step(d, b).1.Some?
    ensures d.state == ReadPayload && d.nbyte + 1 == CH_HDR_SIZE + d.payloadLen
    ensures var buf := d.buf[d.nbyte := b];
      CrcMatches(buf, d.payloadLen) && d.payloadLen >= HI91_SIZE && buf[CH_HDR_SIZE] == FRAME_TAG_HI91
  {
  }

  /** Feeding two chunks one after the other gives the packets of feeding them together. */
  lemma {:induction false} FeedConcat(d: Decoder, a: seq<bv8>, b: seq<bv8>)
    requires Valid(d)
    ensures Feed(d, a + b).0 == Feed(Feed(d, a).0, b).0
    ensures Feed(d, a + b).1 == Feed(d, a).1 + Feed(Feed(d, a).0, b).1
    decreases |a|
  {
    if a != [] {
      var d1, out := FeedConcatStep(d, a, b);
      FeedConcat(d1, a[1..], b);
      var restA := Feed(d1, a[1..]);
      var restB := Feed(restA.0, b);
      assert out + (restA.1 + restB.1) == (out + restA.1) + restB.1;
    } else {
      assert a + b == b;
    }
  }

  /** The first byte of `a` is stepped the same way whether or not `b` follows. */
  lemma FeedConcatStep(d: Decoder, a: seq<bv8>, b: seq<bv8>) returns (d1: Decoder, out: seq<Hi91Data>)
    requires Valid(d) && a != []
    ensures Valid(d1)
    ensures Feed(d, a) == (Feed(d1, a[1..]).0, out + Feed(d1, a[1..]).1)
    ensures Feed(d, a + b) == (Feed(d1, a[1..] + b).0, out + Feed(d1, a[1..] + b).1)
  {
    d1, out := Step(d, a[0]).0, Emitted(Step(d, a[0]).1);
    assert (a + b)[0] == a[0] && (a + b)[1..] == a[1..] + b;
    FeedCons(d, a + b);
    FeedCons(d, a);
  }

  // ---------------------------------------------------------------------------------------
  // A whole frame through the decoder

  /** The frame a HiPNUC device sends around `payload`: sync bytes, the length bytes
      `lenLo lenHi`, the little-endian CRC of the first four bytes and the payload, then the
      payload. */
  function EncodeFrame(lenLo: bv8, lenHi: bv8, payload: seq<bv8>): (f: seq<bv8>)
    ensures |f| == CH_HDR_SIZE + |payload| && f[CH_HDR_SIZE..] == payload
    ensures f[..4] == [CHSYNC1, CHSYNC2, lenLo, lenHi]
  {
    var head := [CHSYNC1, CHSYNC2, lenLo, lenHi];
    var crc := Crc16(0, head + payload);
    head + [(crc & 0xFF) as bv8, (crc >> 8) as bv8] + payload
  }

  /** The CRC field of an encoded frame is the CRC of its first four bytes and its payload. */
  lemma EncodeFrameCrc(lenLo: bv8, lenHi: bv8, payload: seq<bv8>)
    ensures var f := EncodeFrame(lenLo, lenHi, payload);
      LE16(f[4], f[5]) == Crc16(0, f[0..4] + payload)
  {
    var f := EncodeFrame(lenLo, lenHi, payload);
    var crc := Crc16(0, [CHSYNC1, CHSYNC2, lenLo, lenHi] + payload);
    assert f[0..4] == [CHSYNC1, CHSYNC2, lenLo, lenHi];
    assert f[4] == (crc & 0xFF) as bv8 && f[5] == (crc >> 8) as bv8;
    LE16Split(crc);
  }

  lemma LE16Split(x: bv16)
    ensures LE16((x & 0xFF) as bv8, (x >> 8) as bv8) == x
  {
  }

  /** Only the bytes of the frame itself decide a frame's result, not what the buffer holds
      beyond it. */
  lemma FrameResultLocal(buf1: seq<bv8>, buf2: seq<bv8>, payloadLen: nat)
    requires |buf1| == |buf2| == HIPNUC_MAX_RAW_SIZE && 1 <= payloadLen
    requires CH_HDR_SIZE + payloadLen <= HIPNUC_MAX_RAW_SIZE
    requires buf1[..CH_HDR_SIZE + payloadLen] == buf2[..CH_HDR_SIZE + payloadLen]
    ensures FrameResult(buf1, payloadLen) == FrameResult(buf2, payloadLen)
  {
    var n := CH_HDR_SIZE + payloadLen;
    assert buf1[0..4] == buf1[..n][0..4] == buf2[..n][0..4] == buf2[0..4];
    assert buf1[CH_HDR_SIZE..n] == buf1[..n][CH_HDR_SIZE..] == buf2[..n][CH_HDR_SIZE..] == buf2[CH_HDR_SIZE..n];
    assert buf1[4] == buf1[..n][4] == buf2[..n][4] == buf2[4];
    assert buf1[5] == buf1[..n][5] == buf2[..n][5] == buf2[5];
  }

  /** The payload bytes of `frame` from position `k` on, fed to a decoder that holds the first
      `k` bytes, finish the frame: the decoder resets and emits the frame's result. */
  lemma {:induction false} FeedPayload(d: Decoder, frame: seq<bv8>, k: nat)
    requires Valid(d) && d.state == ReadPayload && d.nbyte == k
    requires |frame| == CH_HDR_SIZE + d.payloadLen && k < |frame| && d.buf[..k] == frame[..k]
    ensures Feed(d, frame[k..]).0.state == WaitSync1
    ensures Feed(d, frame[k..]).1 == Emitted(FrameResult(frame + d.buf[|frame|..], d.payloadLen))
    decreases |frame| - k
  {
    if k + 1 == |frame| {
      PayloadFinish(d, frame);
    } else {
      var d1 := PayloadMiddleByte(d, frame, k);
      FeedPayload(d1, frame, k + 1);
    }
  }

  lemma PayloadMiddleByte(d: Decoder, frame: seq<bv8>, k: nat) returns (d1: Decoder)
    requires Valid(d) && d.state == ReadPayload && d.nbyte == k
    requires |frame| == CH_HDR_SIZE + d.payloadLen && k + 1 < |frame| && d.buf[..k] == frame[..k]
    ensures Valid(d1) && d1.state == ReadPayload && d1.nbyte == k + 1 && d1.payloadLen == d.payloadLen
    ensures d1.buf[..k + 1] == frame[..k + 1] && d1.buf[|frame|..] == d.buf[|frame|..]
    ensures Feed(d, frame[k..]) == Feed(d1, frame[k + 1..])
  {
    d1 := d.(buf := d.buf[k := frame[k]], nbyte := k + 1);
    UpdatePrefix(d.buf, frame, k);
    assert d1.buf[|frame|..] == d.buf[|frame|..];
    assert Step(d, frame[k]) == (d1, None);
    FeedSilent(d, frame, k);
  }

  lemma PayloadFinish(d: Decoder, frame: seq<bv8>)
    requires Valid(d) && d.state == ReadPayload && d.nbyte + 1 == |frame|
    requires |frame| == CH_HDR_SIZE + d.payloadLen && d.buf[..d.nbyte] == frame[..d.nbyte]
    ensures Feed(d, frame[d.nbyte..]).0.state == WaitSync1
    ensures Feed(d, frame[d.nbyte..]).1 == Emitted(FrameResult(frame + d.buf[|frame|..], d.payloadLen))
  {
    var k := d.nbyte;
    assert frame[k..] == [frame[k]];
    LastByteBuffer(d.buf, frame, d.payloadLen);
    PayloadLastByte(d, frame[k]);
  }

  /** Writing the last byte of a frame into a buffer holding the rest of it gives a buffer
      whose frame result is that of the frame. */
  lemma LastByteBuffer(buf: seq<bv8>, frame: seq<bv8>, payloadLen: nat)
    requires |buf| == HIPNUC_MAX_RAW_SIZE && 1 <= payloadLen && |frame| == CH_HDR_SIZE + payloadLen <= HIPNUC_MAX_RAW_SIZE
    requires buf[..|frame| - 1] == frame[..|frame| - 1]
    ensures FrameResult(buf[|frame| - 1 := frame[|frame| - 1]], payloadLen) == FrameResult(frame + buf[|frame|..], payloadLen)
  {
    var k := |frame| - 1;
    var whole := frame + buf[|frame|..];
    UpdatePrefix(buf, frame, k);
    assert frame[..k + 1] == frame;
    assert whole[..|frame|] == frame;
    FrameResultLocal(buf[k := frame[k]], whole, payloadLen);
  }

  lemma UpdatePrefix(s: seq<bv8>, f: seq<bv8>, k: nat)
    requires k < |s| && k < |f| && s[..k] == f[..k]
    ensures s[k := f[k]][..k + 1] == f[..k + 1]
  {
    assert forall i :: 0 <= i < k ==> s[i] == s[..k][i];
  }

  lemma PayloadLastByte(d: Decoder, b: bv8)
    requires Valid(d) && d.state == ReadPayload && d.nbyte + 1 == CH_HDR_SIZE + d.payloadLen
    ensures Feed(d, [b]).0.state == WaitSync1
    ensures Feed(d, [b]).1 == Emitted(FrameResult(d.buf[d.nbyte := b], d.payloadLen))
  {
    CompletionResets(d, b);
    var s := [b];
    assert s[1..] == [];
  }

  /** A step that emits nothing adds nothing to what the rest of the input emits. */
  lemma FeedSilent(d: Decoder, f: seq<bv8>, k: nat)
    requires Valid(d) && k < |f| && Step(d, f[k]).1 == None
    ensures Feed(d, f[k..]) == Feed(Step(d, f[k]).0, f[k + 1..])
  {
    FeedAt(d, f, k);
    var rest := Feed(Step(d, f[k]).0, f[k + 1..]);
    assert [] + rest.1 == rest.1;
  }

  /** `FeedCons` at position `k` of a longer input. */
  lemma FeedAt(d: Decoder, f: seq<bv8>, k: nat)
    requires Valid(d) && k < |f|
    ensures Feed(d, f[k..]).0 == Feed(Step(d, f[k]).0, f[k + 1..]).0
    ensures Feed(d, f[k..]).1 == Emitted(Step(d, f[k]).1) + Feed(Step(d, f[k]).0, f[k + 1..]).1
  {
    assert f[k..][0] == f[k] && f[k..][1..] == f[k + 1..];
  }

  /** The six header bytes of a frame with an acceptable length take a waiting decoder, silently,
      to reading the payload with those six bytes in its buffer. */
  lemma FeedHeader(d: Decoder, f: seq<bv8>) returns (d6: Decoder)
    requires Valid(d) && d.state == WaitSync1 && |f| > CH_HDR_SIZE
    requires f[0] == CHSYNC1 && f[1] == CHSYNC2 && LengthField(f[2], f[3]) == |f| - CH_HDR_SIZE
    requires |f| <= HIPNUC_MAX_RAW_SIZE
    ensures Valid(d6) && d6.state == ReadPayload && d6.nbyte == CH_HDR_SIZE
    ensures d6.payloadLen == |f| - CH_HDR_SIZE && d6.buf[..CH_HDR_SIZE] == f[..CH_HDR_SIZE]
    ensures Feed(d, f) == Feed(d6, f[CH_HDR_SIZE..])
  {
    var d1 := FirstSyncByte(d, f);
    var d2 := SecondSyncByte(d1, f);
    d6 := FeedHeaderBytes(d2, f, 2);
  }

  lemma FirstSyncByte(d: Decoder, f: seq<bv8>) returns (d1: Decoder)
    requires Valid(d) && d.state == WaitSync1 && |f| > 1 && f[0] == CHSYNC1
    ensures Valid(d1) && d1.state == WaitSync2 && d1.nbyte == 1 && d1.buf[..1] == f[..1]
    ensures Feed(d, f) == Feed(d1, f[1..])
  {
    d1 := d.(buf := d.buf[0 := f[0]], nbyte := 1, state := WaitSync2);
    assert Step(d, f[0]) == (d1, None);
    FeedSilent(d, f, 0);
    assert f[0..] == f;
  }

  lemma SecondSyncByte(d: Decoder, f: seq<bv8>) returns (d2: Decoder)
    requires Valid(d) && d.state == WaitSync2 && d.nbyte == 1
    requires |f| > 2 && d.buf[..1] == f[..1] && f[1] == CHSYNC2
    ensures Valid(d2) && d2.state == ReadHeader && d2.nbyte == 2 && d2.buf[..2] == f[..2]
    ensures Feed(d, f[1..]) == Feed(d2, f[2..])
  {
    d2 := d.(buf := d.buf[1 := f[1]], nbyte := 2, state := ReadHeader);
    assert Step(d, f[1]) == (d2, None);
    FeedSilent(d, f, 1);
    assert d2.buf[..2] == f[..2] by {
      assert d2.buf[0] == d.buf[..1][0];
    }
  }

  /** Header bytes from position `k` on take a decoder that holds the first `k` of them to
      reading the payload. */
  lemma {:induction false} FeedHeaderBytes(d: Decoder, f: seq<bv8>, k: nat) returns (d6: Decoder)
    requires Valid(d) && d.state == ReadHeader && d.nbyte == k && |f| > CH_HDR_SIZE
    requires d.buf[..k] == f[..k] && LengthField(f[2], f[3]) == |f| - CH_HDR_SIZE
    requires |f| <= HIPNUC_MAX_RAW_SIZE
    ensures Valid(d6) && d6.state == ReadPayload && d6.nbyte == CH_HDR_SIZE
    ensures d6.payloadLen == |f| - CH_HDR_SIZE && d6.buf[..CH_HDR_SIZE] == f[..CH_HDR_SIZE]
    ensures Feed(d, f[k..]) == Feed(d6, f[CH_HDR_SIZE..])
    decreases CH_HDR_SIZE - k
  {
    if k + 1 == CH_HDR_SIZE {
      d6 := HeaderLastByte(d, f);
    } else {
      var d1 := HeaderMiddleByte(d, f, k);
      d6 := FeedHeaderBytes(d1, f, k + 1);
    }
  }

  lemma HeaderMiddleByte(d: Decoder, f: seq<bv8>, k: nat) returns (d1: Decoder)
    requires Valid(d) && d.state == ReadHeader && d.nbyte == k && k + 1 < CH_HDR_SIZE < |f|
    requires d.buf[..k] == f[..k]
    ensures Valid(d1) && d1.state == ReadHeader && d1.nbyte == k + 1 && d1.buf[..k + 1] == f[..k + 1]
    ensures Feed(d, f[k..]) == Feed(d1, f[k + 1..])
  {
    var buf := d.buf[k := f[k]];
    assert buf[..k + 1] == f[..k + 1];
    d1 := d.(buf := buf, nbyte := k + 1);
    assert Step(d, f[k]) == (d1, None);
    FeedSilent(d, f, k);
  }

  lemma HeaderLastByte(d: Decoder, f: seq<bv8>) returns (d6: Decoder)
    requires Valid(d) && d.state == ReadHeader && d.nbyte == CH_HDR_SIZE - 1 && |f| > CH_HDR_SIZE
    requires d.buf[..CH_HDR_SIZE - 1] == f[..CH_HDR_SIZE - 1] && LengthField(f[2], f[3]) == |f| - CH_HDR_SIZE
    requires |f| <= HIPNUC_MAX_RAW_SIZE
    ensures Valid(d6) && d6.state == ReadPayload && d6.nbyte == CH_HDR_SIZE
    ensures d6.payloadLen == |f| - CH_HDR_SIZE && d6.buf[..CH_HDR_SIZE] == f[..CH_HDR_SIZE]
    ensures Feed(d, f[CH_HDR_SIZE - 1..]) == Feed(d6, f[CH_HDR_SIZE..])
  {
    var k := CH_HDR_SIZE - 1;
    var buf := d.buf[k := f[k]];
    assert buf[..k + 1] == f[..k + 1];
    assert d.buf[2] == f[2] && d.buf[3] == f[3];
    StepToPayload(d, f[k]);
    d6 := Step(d, f[k]).0;
    FeedSilent(d, f, k);
  }

  /** The last header byte with an acceptable length starts the payload. */
  lemma StepToPayload(d: Decoder, b: bv8)
    requires Valid(d) && d.state == ReadHeader && d.nbyte == CH_HDR_SIZE - 1
    requires 0 < LengthField(d.buf[2], d.buf[3]) <= HIPNUC_MAX_RAW_SIZE - CH_HDR_SIZE
    ensures Step(d, b) == (d.(buf := d.buf[CH_HDR_SIZE - 1 := b], nbyte := CH_HDR_SIZE,
                                payloadLen := LengthField(d.buf[2], d.buf[3]), state := ReadPayload), None)
  {
  }

  /** A frame built around any payload of 1 to 506 bytes, its length field holding that length,
      fed to a decoder waiting for a frame, leaves it waiting for the next one and yields exactly
      the packet its payload parses to: one HI91 packet when the payload is one, nothing
      otherwise. */
  lemma FrameDecodes(d: Decoder, lenLo: bv8, lenHi: bv8, payload: seq<bv8>)
    requires Valid(d) && d.state == WaitSync1 && 1 <= |payload| <= HIPNUC_MAX_RAW_SIZE - CH_HDR_SIZE
    requires LengthField(lenLo, lenHi) == |payload|
    ensures Feed(d, EncodeFrame(lenLo, lenHi, payload)).0.state == WaitSync1
    ensures Feed(d, EncodeFrame(lenLo, lenHi, payload)).1 == Emitted(ParsePayload(payload))
  {
    var f := EncodeFrame(lenLo, lenHi, payload);
    assert f[0] == CHSYNC1 && f[1] == CHSYNC2 && f[2] == lenLo && f[3] == lenHi by {
      assert f[0] == f[..4][0] && f[1] == f[..4][1] && f[2] == f[..4][2] && f[3] == f[..4][3];
    }
    var d6 := FeedHeader(d, f);
    var buf := f + d6.buf[|f|..];
    assert Feed(d6, f[CH_HDR_SIZE..]).0.state == WaitSync1
      && Feed(d6, f[CH_HDR_SIZE..]).1 == Emitted(FrameResult(buf, |payload|)) by {
      FeedPayload(d6, f, CH_HDR_SIZE);
    }
    EncodedFrameResult(lenLo, lenHi, payload, d6.buf[|f|..]);
  }

  /** An encoded frame in the buffer, whatever follows it, passes the CRC check, so its result
      is what its payload parses to. */
  lemma EncodedFrameResult(lenLo: bv8, lenHi: bv8, payload: seq<bv8>, tail: seq<bv8>)
    requires 1 <= |payload| && CH_HDR_SIZE + |payload| + |tail| == HIPNUC_MAX_RAW_SIZE
    ensures FrameResult(EncodeFrame(lenLo, lenHi, payload) + tail, |payload|) == ParsePayload(payload)
  {
    var f := EncodeFrame(lenLo, lenHi, payload);
    var buf := f + tail;
    assert buf[0..4] == f[0..4] && buf[CH_HDR_SIZE..CH_HDR_SIZE + |payload|] == payload;
    assert buf[4] == f[4] && buf[5] == f[5];
    EncodeFrameCrc(lenLo, lenHi, payload);
    assert CrcMatches(buf, |payload|);
  }
  /** An encoded frame with any one payload byte changed is dropped: the CRC check catches the
      change, the decoder goes back to waiting and yields nothing. */
  lemma CorruptedFrameRejected(d: Decoder, lenLo: bv8, lenHi: bv8, payload: seq<bv8>, i: nat, x: bv8)
    requires Valid(d) && d.state == WaitSync1 && 1 <= |payload| <= HIPNUC_MAX_RAW_SIZE - CH_HDR_SIZE
    requires LengthField(lenLo, lenHi) == |payload|
    requires i < |payload| && x != payload[i]
    ensures var g := EncodeFrame(lenLo, lenHi, payload)[CH_HDR_SIZE + i := x];
      Feed(d, g).0.state == WaitSync1 && Feed(d, g).1 == []
  {
    var g := EncodeFrame(lenLo, lenHi, payload)[CH_HDR_SIZE + i := x];
    CorruptedFrameHeader(lenLo, lenHi, payload, i, x);
    var d6 := FeedHeader(d, g);
    FeedPayload(d6, g, CH_HDR_SIZE);
    CorruptedFrameCrc(lenLo, lenHi, payload, i, x, d6.buf[|g|..]);
  }

  /** A payload byte changed leaves the header of an encoded frame as it was. */
  lemma CorruptedFrameHeader(lenLo: bv8, lenHi: bv8, payload: seq<bv8>, i: nat, x: bv8)
    requires i < |payload|
    ensures var g := EncodeFrame(lenLo, lenHi, payload)[CH_HDR_SIZE + i := x];
      |g| == CH_HDR_SIZE + |payload| && g[0] == CHSYNC1 && g[1] == CHSYNC2 && g[2] == lenLo && g[3] == lenHi
  {
    var f := EncodeFrame(lenLo, lenHi, payload);
    assert f[0] == f[..4][0] && f[1] == f[..4][1] && f[2] == f[..4][2] && f[3] == f[..4][3];
  }

  /** A frame with a payload byte changed, in the buffer, fails the CRC check. */
  lemma CorruptedFrameCrc(lenLo: bv8, lenHi: bv8, payload: seq<bv8>, i: nat, x: bv8, tail: seq<bv8>)
    requires 1 <= |payload| && CH_HDR_SIZE + |payload| + |tail| == HIPNUC_MAX_RAW_SIZE
    requires i < |payload| && x != payload[i]
    ensures !CrcMatches(EncodeFrame(lenLo, lenHi, payload)[CH_HDR_SIZE + i := x] + tail, |payload|)
  {
    var f := EncodeFrame(lenLo, lenHi, payload);
    var buf := f[CH_HDR_SIZE + i := x] + tail;
    assert buf[0..4] == f[0..4] && buf[4] == f[4] && buf[5] == f[5];
    assert buf[CH_HDR_SIZE..CH_HDR_SIZE + |payload|] == payload[i := x];
    EncodeFrameCrc(lenLo, lenHi, payload);
    CorruptionChangesCrc(f[0..4], payload, i, x);
  }

  /** Changing one byte of the payload changes the CRC of header and payload. */
  lemma CorruptionChangesCrc(head: seq<bv8>, payload: seq<bv8>, i: nat, x: bv8)
    requires i < |payload| && x != payload[i]
    ensures Crc16(0, head + payload[i := x]) != Crc16(0, head + payload)
  {
    assert payload[i := payload[i]] == payload;
    SpliceAt(head, payload, i, payload[i]);
    SpliceAt(head, payload, i, x);
    SingleByteErrorDetected(0, head + payload[..i], payload[i], x, payload[i + 1..]);
  }

  lemma SpliceAt(head: seq<bv8>, s: seq<bv8>, i: nat, x: bv8)
    requires i < |s|
    ensures head + s[i := x] == head + s[..i] + [x] + s[i + 1..]
  {
  }


  /** The garbage of the resynchronisation scenario, a lone 0x5A included, leaves a waiting
      decoder waiting and yields nothing; so the frame after it decodes as if alone. */
  lemma ResyncAfterGarbage(d: Decoder, lenLo: bv8, lenHi: bv8, payload: seq<bv8>)
    requires Valid(d) && d.state == WaitSync1 && 1 <= |payload| <= HIPNUC_MAX_RAW_SIZE - CH_HDR_SIZE
    requires LengthField(lenLo, lenHi) == |payload|
    ensures var garbage: seq<bv8> := [0x00, 0xFF, 0x12, 0x34, 0x5A, 0x00];
      Feed(d, garbage + EncodeFrame(lenLo, lenHi, payload)).1 == Emitted(ParsePayload(payload))
  {
    var garbage: seq<bv8> := [0x00, 0xFF, 0x12, 0x34, 0x5A, 0x00];
    var f := EncodeFrame(lenLo, lenHi, payload);
    var g := Feed(d, garbage);
    assert g.0.state == WaitSync1 && g.1 == [] by {
      GarbageIgnored(d);
    }
    FeedConcat(d, garbage, f);
    FrameDecodes(g.0, lenLo, lenHi, payload);
  }
  /** The sample frame of the decoder's tests: the sample packet behind a header whose length
      field is 76. */
  function SampleFrame(): (f: seq<bv8>)
    ensures |f| == CH_HDR_SIZE + HI91_SIZE && f[CH_HDR_SIZE..] == SAMPLE_HI91
  {
    EncodeFrame(0x4C, 0x00, SAMPLE_HI91)
  }

  /** The sample frame, fed to a fresh decoder, yields exactly one packet: temperature 35,
      system time 1840392. */
  lemma SampleFrameDecodes()
    ensures |Feed(Initial(), SampleFrame()).1| == 1
    ensures Feed(Initial(), SampleFrame()).1[0].temperature == 35
    ensures Feed(Initial(), SampleFrame()).1[0].systemTime == 1840392
  {
    SamplePacketFields();
    FrameDecodes(Initial(), 0x4C, 0x00, SAMPLE_HI91);
  }

  /** The sample frame with byte 10 (a payload byte) inverted yields nothing. */
  lemma SampleCorruptionRejected()
    ensures var f := SampleFrame(); Feed(Initial(), f[10 := f[10] ^ 0xFF]).1 == []
  {
    var f := SampleFrame();
    assert f[10] == SAMPLE_HI91[4];
    CorruptedFrameRejected(Initial(), 0x4C, 0x00, SAMPLE_HI91, 4, SAMPLE_HI91[4] ^ 0xFF);
  }


  lemma GarbageIgnored(d: Decoder)
    requires Valid(d) && d.state == WaitSync1
    ensures Feed(d, [0x00, 0xFF, 0x12, 0x34, 0x5A, 0x00]).0.state == WaitSync1
    ensures Feed(d, [0x00, 0xFF, 0x12, 0x34, 0x5A, 0x00]).1 == []
  {
    var noise: seq<bv8> := [0x00, 0xFF, 0x12, 0x34];
    assert [0x00, 0xFF, 0x12, 0x34, 0x5A, 0x00] == noise + [CHSYNC1, 0x00];
    NoiseThenFalseStart(d, noise, 0x00);
  }

  /** Noise followed by a first sync byte whose successor is not the second one leaves a
      waiting decoder waiting, and yields nothing. */
  lemma NoiseThenFalseStart(d: Decoder, noise: seq<bv8>, x: bv8)
    requires Valid(d) && d.state == WaitSync1 && x != CHSYNC2
    requires forall i :: 0 <= i < |noise| ==> noise[i] != CHSYNC1
    ensures Feed(d, noise + [CHSYNC1, x]).0.state == WaitSync1
    ensures Feed(d, noise + [CHSYNC1, x]).1 == []
  {
    var falseStart: seq<bv8> := [CHSYNC1, x];
    NoiseIgnored(d, noise);
    FeedConcat(d, noise, falseStart);
    var d2 := FalseStartSkipped(d, falseStart, 0);
    assert falseStart[0..] == falseStart && falseStart[2..] == [];
  }

  /** While waiting for a frame, input without the first sync byte changes nothing and yields
      nothing. */
  lemma {:induction false} NoiseIgnored(d: Decoder, f: seq<bv8>)
    requires Valid(d) && d.state == WaitSync1
    requires forall i :: 0 <= i < |f| ==> f[i] != CHSYNC1
    ensures Feed(d, f) == (d, [])
  {
    if f != [] {
      NoiseSkipped(d, f, 0);
      NoiseIgnored(d, f[1..]);
      assert f[0..] == f;
    }
  }

  /** A waiting decoder skips a byte that is not the first sync byte. */
  lemma NoiseSkipped(d: Decoder, f: seq<bv8>, k: nat)
    requires Valid(d) && d.state == WaitSync1 && k < |f| && f[k] != CHSYNC1
    ensures Feed(d, f[k..]) == Feed(d, f[k + 1..])
  {
    Sync1IgnoresNoise(d, f[k]);
    FeedSilent(d, f, k);
  }

  /** A first sync byte followed by anything but the second sends a waiting decoder back to
      waiting, silently. */
  lemma FalseStartSkipped(d: Decoder, f: seq<bv8>, k: nat) returns (d2: Decoder)
    requires Valid(d) && d.state == WaitSync1 && k + 1 < |f| && f[k] == CHSYNC1 && f[k + 1] != CHSYNC2
    ensures Valid(d2) && d2.state == WaitSync1
    ensures Feed(d, f[k..]) == Feed(d2, f[k + 2..])
  {
    var d1 := Step(d, f[k]).0;
    assert d1.state == WaitSync2;
    FeedSilent(d, f, k);
    Sync2MismatchResets(d1, f[k + 1]);
    d2 := Step(d1, f[k + 1]).0;
    FeedSilent(d1, f, k + 1);
  }

  /** Feeding from position `i` is the step on `data[i]` followed by feeding from `i + 1`,
      with the packets collected so far in front. */
  lemma FeedFrom(d: Decoder, data: seq<bv8>, i: nat, results: seq<Hi91Data>)
    requires Valid(d) && i < |data|
    ensures Feed(d, data[i..]).0 == Feed(Step(d, data[i]).0, data[i + 1..]).0
    ensures results + Feed(d, data[i..]).1
      == (results + Emitted(Step(d, data[i]).1)) + Feed(Step(d, data[i]).0, data[i + 1..]).1
  {
    assert data[i..][0] == data[i] && data[i..][1..] == data[i + 1..];
    FeedCons(d, data[i..]);
  }

  // ---------------------------------------------------------------------------------------
  // The decoder object

  class HipnucDecoder {
    var state: DecoderState
    var buf: array<bv8>
    var nbyte: nat
    var payloadLen: nat

    function Model(): Decoder
      reads this, buf
    {
      Decoder(state, buf[..], nbyte, payloadLen)
    }

    ghost predicate Inv()
      reads this, buf
    {
      Valid(Model())
    }

    /** `HipnucDecoder::new`. */
    constructor ()
      ensures Inv() && Model() == Initial() && fresh(buf)
    {
      state := WaitSync1;
      buf := new bv8[HIPNUC_MAX_RAW_SIZE](_ => 0);
      nbyte := 0;
      payloadLen := 0;
    }

    /** `reset`. */
    method Reset()
      requires buf.Length == HIPNUC_MAX_RAW_SIZE
      modifies this
      ensures buf == old(buf) && Inv() && Model() == ResetState(old(Model()))
    {
      state := WaitSync1;
      nbyte := 0;
      payloadLen := 0;
    }

    /** `validate_and_parse`: builds the CRC input, runs the CRC loop, compares with the
        received field and parses the payload. */
    method ValidateAndParse() returns (r: Option<Hi91Data>)
      requires Inv() && state == ReadPayload && nbyte == CH_HDR_SIZE + payloadLen - 1
      ensures r == FrameResult(buf[..], payloadLen)
    {
      var totalLen := CH_HDR_SIZE + payloadLen;
      var crcData := buf[0..4] + buf[CH_HDR_SIZE..totalLen];
      var crcCalculated := Crc16Update(0, crcData);
      var crcReceived := LE16(buf[4], buf[5]);
      if crcCalculated != crcReceived {
        return None;
      }
      r := ParsePayload(buf[CH_HDR_SIZE..totalLen]);
    }

    /** The header branch of `input`: store the byte and, on the sixth, check the length. */
    method InputHeader(b: bv8) returns (r: Option<Hi91Data>)
      requires Inv() && state == ReadHeader
      modifies this, buf
      ensures buf == old(buf) && Inv()
      ensures (Model(), r) == Step(old(Model()), b)
    {
      buf[nbyte] := b;
      nbyte := nbyte + 1;
      r := None;
      if nbyte >= CH_HDR_SIZE {
        payloadLen := LengthField(buf[2], buf[3]);
        if payloadLen == 0 || CH_HDR_SIZE + payloadLen > HIPNUC_MAX_RAW_SIZE {
          Reset();
          return;
        }
        state := ReadPayload;
      }
    }

    /** The payload branch of `input`: store the byte and, on the last one, validate the frame
        and reset. */
    method InputPayload(b: bv8) returns (r: Option<Hi91Data>)
      requires Inv() && state == ReadPayload
      modifies this, buf
      ensures buf == old(buf) && Inv()
      ensures (Model(), r) == Step(old(Model()), b)
    {
      buf[nbyte] := b;
      if nbyte + 1 >= CH_HDR_SIZE + payloadLen {
        r := ValidateAndParse();
        Reset();
      } else {
        nbyte := nbyte + 1;
        r := None;
      }
    }

    /** `input`: one byte through the state machine, exactly as Step says. */
    method Input(b: bv8) returns (r: Option<Hi91Data>)
      requires Inv()
      modifies this, buf
      ensures buf == old(buf) && Inv()
      ensures (Model(), r) == Step(old(Model()), b)
    {
      match state {
        case WaitSync1 =>
          if b == CHSYNC1 {
            buf[0] := b;
            nbyte := 1;
            state := WaitSync2;
          }
          r := None;
        case WaitSync2 =>
          if b == CHSYNC2 {
            buf[1] := b;
            nbyte := 2;
            state := ReadHeader;
          } else {
            state := WaitSync1;
            nbyte := 0;
          }
          r := None;
        case ReadHeader =>
          r := InputHeader(b);
        case ReadPayload =>
          r := InputPayload(b);
      }
    }

    /** `input_bytes`: feeds every byte in order and keeps the packets produced. */
    method InputBytes(data: seq<bv8>) returns (results: seq<Hi91Data>)
      requires Inv()
      modifies this, buf
      ensures buf == old(buf) && Inv()
      ensures (Model(), results) == Feed(old(Model()), data)
    {
      ghost var start := Model();
      results := [];
      assert data[0..] == data;
      assert results + Feed(start, data).1 == Feed(start, data).1;
      for i := 0 to |data|
        invariant buf == old(buf) && Inv()
        invariant Feed(start, data) == (Feed(Model(), data[i..]).0, results + Feed(Model(), data[i..]).1)
      {
        FeedFrom(Model(), data, i, results);
        var packet := Input(data[i]);
        results := results + Emitted(packet);
      }
      assert data[|data|..] == [];
      assert results + [] == results;
    }
  }
}
