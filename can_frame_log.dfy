/** The CAN frame log panel's text: the data bytes and the id as hex, and the 13-byte gateway
    frame reconstructed from a log entry for the "Raw" view. */
module FrameLogView {
  import opened Wrappers
  import opened TextFormat
  import opened MotorProtocol
  import opened Gateway

  // ---------------------------------------------------------------------------------------
  // formatHex and formatId

  /** `formatHex`: each byte as `toString(16).toUpperCase().padStart(2, "0")`, joined by
      single spaces. */
  function FormatHex(data: seq<bv8>): string {
    JoinSpaces(seq(|data|, i requires 0 <= i < |data| => PadStart(ToHex(data[i] as nat), 2, '0')))
  }

  /** `formatId`: "0x" and the id in upper-case hex, padded with zeros to 8 digits for an
      extended id and to 3 for a standard one. */
  function FormatId(id: bv32, isExt: bool): string {
    "0x" + PadStart(ToHex(id as nat), if isExt then 8 else 3, '0')
  }

  lemma HexDigitUpper(d: nat)
    requires d < 16
    ensures IsUpperHexDigit(HexDigit(d))
  {
    assert HEX_DIGITS[d] in HEX_DIGITS;
  }

  /** The frontend's hex rendering of bytes is the gateway's `{:02X}` listing. */
  lemma FormatHexIsListing(data: seq<bv8>)
    ensures FormatHex(data) == HexListing(data)
  {
    var ts := seq(|data|, i requires 0 <= i < |data| => PadStart(ToHex(data[i] as nat), 2, '0'));
    forall k | 0 <= k < |data|
      ensures ts[k] == ByteTokens(data)[k]
    {
      ByteHexPadded(data[k]);
    }
    assert ts == ByteTokens(data);
  }

  /** The listing's layout: three characters per byte, the first two the byte's two upper-case
      hex digits, the third a single space between bytes (none after the last). */
  lemma {:induction false} ListingLayout(data: seq<bv8>)
    ensures |HexListing(data)| == if data == [] then 0 else 3 * |data| - 1
    ensures forall i :: 0 <= i < |HexListing(data)| ==>
      HexListing(data)[i] == if i % 3 == 2 then ' ' else ByteHex(data[i / 3])[i % 3]
  {
    var l := HexListing(data);
    if |data| == 1 {
      assert ByteTokens(data) == [ByteHex(data[0])];
    } else if |data| >= 2 {
      var rest := HexListing(data[1..]);
      assert l == ByteHex(data[0]) + " " + rest by {
        assert ByteTokens(data)[1..] == ByteTokens(data[1..]);
      }
      ListingLayout(data[1..]);
      forall i | 3 <= i < |l|
        ensures l[i] == if i % 3 == 2 then ' ' else ByteHex(data[i / 3])[i % 3]
      {
        ShiftByThree(i);
        assert l[i] == rest[i - 3];
        assert data[1..][i / 3 - 1] == data[i / 3];
      }
    }
  }

  lemma ShiftByThree(i: int)
    requires i >= 3
    ensures (i - 3) % 3 == i % 3 && (i - 3) / 3 == i / 3 - 1
  {
  }

  /** Every byte token is two upper-case hex digits. */
  lemma ByteHexUpper(b: bv8)
    ensures IsUpperHexDigit(ByteHex(b)[0]) && IsUpperHexDigit(ByteHex(b)[1])
  {
    HexDigitUpper((b as int) / 16);
    HexDigitUpper((b as int) % 16);
    assert ByteHex(b) == [HexDigit((b as int) / 16), HexDigit((b as int) % 16)];
  }

  /** `formatHex`'s text is read back byte for byte by the gateway's raw-hex parser. */
  lemma FormatHexParses(data: seq<bv8>)
    ensures ParseHexBytes(FormatHex(data)) == Ok(data)
  {
    FormatHexIsListing(data);
    ListingRoundTrip(data);
  }

  /** `formatId` is "0x" followed by upper-case hex digits that denote the id. */
  lemma FormatIdDigits(id: bv32, isExt: bool)
    ensures var r := FormatId(id, isExt);
      && |r| >= 3 && r[..2] == "0x"
      && IsHexString(r[2..]) && HexValue(r[2..]) == id as nat
      && forall i :: 2 <= i < |r| ==> IsUpperHexDigit(r[i])
  {
    var w := if isExt then 8 else 3;
    var h := ToHex(id as nat);
    ToHexRoundTrip(id as nat);
    ZeroPadValue(h, w);
    var p := PadStart(h, w, '0');
    var r := FormatId(id, isExt);
    assert r[2..] == p;
    forall i | 0 <= i < |p|
      ensures IsUpperHexDigit(p[i])
    {
      if i >= |p| - |h| {
        assert p[i] == p[|p| - |h|..][i - (|p| - |h|)];
      }
    }
  }

  lemma Pow16Widths()
    ensures Pow16(3) == 0x1000 && Pow16(8) == 0x1_0000_0000
  {
    assert Pow16(1) == 16 && Pow16(2) == 256 && Pow16(3) == 0x1000 && Pow16(4) == 0x1_0000;
    assert Pow16(5) == 0x10_0000 && Pow16(6) == 0x100_0000 && Pow16(7) == 0x1000_0000;
  }

  /** An extended id always takes exactly 8 digits; a standard id takes exactly 3 when it is
      below 0x1000 and more digits otherwise. */
  lemma FormatIdWidth(id: bv32, isExt: bool)
    ensures isExt ==> |FormatId(id, isExt)| == 10
    ensures !isExt ==> (|FormatId(id, isExt)| == 5 <==> id as nat < 0x1000)
  {
    var n := id as nat;
    Pow16Widths();
    if isExt {
      assert n < 0x1_0000_0000;
      ToHexLength(n, 8);
      assert |ToHex(n)| <= 8;
    } else {
      ToHexLength(n, 3);
    }
  }

  // ---------------------------------------------------------------------------------------
  // buildRawFrame

  /** The frame-info byte the panel shows: bit 7 for an extended id, the low four bits of the
      data length as the DLC. */
  function FrameInfo(e: CanFrameLog): bv8 {
    (if e.isExtended then 0x80 else 0x00) | ((|e.data| % 16) as bv8)
  }

  /** The number of data bytes the raw frame carries: at most 8. */
  function CarriedLength(e: CanFrameLog): (m: nat)
    ensures m <= 8 && m <= |e.data|
    ensures m == 8 || m == |e.data|
  {
    if |e.data| < 8 then |e.data| else 8
  }

  /** The 13-byte gateway frame reconstructed from a log entry: frame info, the id big-endian,
      the first (at most 8) data bytes, then zeros. */
  function RawFrame(e: CanFrameLog): Frame13 {
    var m := CarriedLength(e);
    [FrameInfo(e)] + BytesBE32(e.canId) + e.data[..m] + seq(8 - m, _ => 0 as bv8)
  }

  /** The raw frame starts with the frame info, the id bytes and the carried data, and is
      zero from there on. */
  lemma RawFrameParts(e: CanFrameLog)
    ensures var m := CarriedLength(e);
      && RawFrame(e)[..5 + m] == [FrameInfo(e)] + BytesBE32(e.canId) + e.data[..m]
      && forall k :: 5 + m <= k < 13 ==> RawFrame(e)[k] == 0
  {
  }

  /** The bytes assembled before the padding loop are a prefix of the raw frame. */
  lemma RawFrameHead(e: CanFrameLog, frameInfo: bv8, bytes: seq<bv8>)
    requires frameInfo == (if e.isExtended then 0x80 else 0x00) | ((|e.data| % 16) as bv8)
    requires bytes == [frameInfo] + BytesBE32(e.canId) + e.data[..if |e.data| < 8 then |e.data| else 8]
    ensures 5 + CarriedLength(e) == |bytes| <= 13
    ensures bytes == RawFrame(e)[..|bytes|]
  {
    RawFrameParts(e);
  }

  /** One zero byte more is still a prefix of the raw frame. */
  lemma RawFramePadStep(e: CanFrameLog, bytes: seq<bv8>)
    requires 5 + CarriedLength(e) <= |bytes| < 13
    requires bytes == RawFrame(e)[..|bytes|]
    ensures bytes + [0] == RawFrame(e)[..|bytes| + 1]
  {
    var raw := RawFrame(e);
    RawFrameParts(e);
    assert raw[|bytes|] == 0;
    assert raw[..|bytes| + 1] == raw[..|bytes|] + [0];
  }

  /** `buildRawFrame`: the frame's bytes are assembled, padded with zero bytes up to 13 in a
      loop, and rendered as `formatHex` does. */
  method BuildRawFrame(entry: CanFrameLog) returns (text: string)
    ensures text == FormatHex(RawFrame(entry))
  {
    var dlc := |entry.data|;
    var frameInfo: bv8 := (if entry.isExtended then 0x80 else 0x00) | ((dlc % 16) as bv8);
    var id := entry.canId;
    // the four id bytes `(id >> 24) & 0xFF` ... `id & 0xFF`, most significant first
    var bytes: seq<bv8> := [frameInfo] + BytesBE32(id) + entry.data[..if dlc < 8 then dlc else 8];
    RawFrameHead(entry, frameInfo, bytes);
    while |bytes| < 13
      invariant 5 + CarriedLength(entry) <= |bytes| <= 13
      invariant bytes == RawFrame(entry)[..|bytes|]
    {
      RawFramePadStep(entry, bytes);
      bytes := bytes + [0];
    }
    assert RawFrame(entry)[..13] == RawFrame(entry);
    text := FormatHex(bytes);
  }

  /** The raw frame's fields read back as the entry's: bit 7 of byte 0 is "extended", its low
      nibble the data length modulo 16, bytes 1-4 the id, then the carried data and zeros. */
  lemma RawFrameFields(e: CanFrameLog)
    ensures var f := RawFrame(e); var m := CarriedLength(e);
      && (f[0] & 0x80 != 0 <==> e.isExtended)
      && f[0] & 0x0F == (|e.data| % 16) as bv8
      && f[0] & 0x70 == 0
      && BE32(f[1..5]) == e.canId
      && f[5..5 + m] == e.data[..m]
      && forall i :: 5 + m <= i < 13 ==> f[i] == 0
  {
    var f := RawFrame(e);
    var m := CarriedLength(e);
    assert f[1..5] == BytesBE32(e.canId);
    assert f[5..5 + m] == e.data[..m];
    var n := (|e.data| % 16) as bv8;
    assert n < 16;
    assert f[0] == (if e.isExtended then 0x80 else 0x00) | n;
  }

  /** A standard data frame the gateway sends (a single frame or one batch element) is shown
      raw as exactly the frame it built. */
  lemma RawFrameOfStandardSend(canId: bv16, data: Data8, now: nat)
    ensures RawFrame(CanFrameLog(Tx, canId as bv32, false, data, now)) == BuildCanFrame(canId, data)
  {
    var e := CanFrameLog(Tx, canId as bv32, false, data, now);
    var f := BuildCanFrame(canId, data);
    assert BE32(f[1..5]) == canId as bv32;
    BE32Injective(f[1..5]);
    assert RawFrame(e) == [f[0]] + f[1..5] + f[5..13];
  }

  /** An extended data frame the gateway sends is shown raw as exactly the frame it built. */
  lemma RawFrameOfExtendedSend(extId: bv32, data: Data8, now: nat)
    ensures RawFrame(CanFrameLog(Tx, extId, true, data, now)) == BuildExtCanFrame(extId, data)
  {
    var e := CanFrameLog(Tx, extId, true, data, now);
    var f := BuildExtCanFrame(extId, data);
    BE32Injective(f[1..5]);
    assert RawFrame(e) == [f[0]] + f[1..5] + f[5..13];
  }

  /** A received frame is shown raw with its id and data bytes unchanged, but with its frame
      info rebuilt as DLC 8 plus the extended bit; so the view reproduces the received frame
      exactly when that byte was 0x08 or 0x88. */
  lemma RawFrameOfReceived(f: Frame13, now: nat)
    ensures RawFrame(RxLog(f, now))[1..] == f[1..]
    ensures RawFrame(RxLog(f, now))[0] == if IsExtendedDataFrame(f[0]) then 0x88 else 0x08
    ensures RawFrame(RxLog(f, now)) == f <==> f[0] == 0x08 || f[0] == 0x88
  {
    var r := RawFrame(RxLog(f, now));
    BE32Injective(f[1..5]);
    assert r[1..] == f[1..5] + f[5..13];
    assert f[1..] == f[1..5] + f[5..13];
    if f[0] == 0x08 || f[0] == 0x88 {
      assert r == [r[0]] + r[1..] && f == [f[0]] + f[1..];
    }
  }

  /** The raw text of any log entry can be pasted into the raw-send command: it parses to the
      13 reconstructed bytes, which are sent unchanged. */
  lemma RawTextSendable(e: CanFrameLog, n: nat, now: nat)
    ensures ParseHexBytes(FormatHex(RawFrame(e))) == Ok(RawFrame(e))
    ensures SendRaw(FormatHex(RawFrame(e)), true, Ok(n), now).sent == Some(RawFrame(e))
  {
    FormatHexParses(RawFrame(e));
    FormatHexIsListing(RawFrame(e));
    SendRawListing(RawFrame(e), n, now);
  }
}
