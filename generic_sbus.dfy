/** The transport-independent S-Bus engine
    (custom_components/sbus/sbus_protocol_base.py): the telegram layout with
    its 8-bit telegram counter, the response check, the register and flag
    operations and the device identification with its fallback. The
    transport's `_send_and_receive` is abstract in the source; here each
    operation takes the reply it would return (a telegram, or the error it
    raised). */
module GenericSBus {
  import opened Bytes
  import opened SBusErrors
  import opened SBusConst
  import Crc16
  import Text

  predicate IsWord16(x: int)
  {
    0 <= x < 0x1_0000
  }

  // ---------------------------------------------------------------------
  // Telegram layout

  /** The part of a telegram the CRC covers: telegram number, station,
      attribute and command bytes, then the address and count as 16-bit
      fields, then the payload. */
  function FrameBody(counter: Byte, station: Byte, attribute: Byte, command: Byte,
                     address: Word16, count: Word16, data: Bytes): (body: Bytes)
    ensures |body| == 8 + |data|
  {
    [counter, station, attribute, command] + U16Be(address) + U16Be(count) + data
  }

  /** A telegram in this layout with the given attribute byte; every field
      packed with "B" or "H" raises struct.error when it does not fit. */
  function Frame(counter: Byte, station: int, attribute: Byte, command: int,
                 address: int, count: int, data: Bytes): (r: Result<Bytes>)
    ensures r.Ok? <==> IsByte(station) && IsByte(command) && IsWord16(address) && IsWord16(count)
    ensures r.Err? ==> r.error == StructError
    ensures r.Ok? ==> |r.value| == 10 + |data|
  {
    if !(IsByte(station) && IsByte(command)) then Err(StructError)
    else if !(IsWord16(address) && IsWord16(count)) then Err(StructError)
    else
      var body := FrameBody(counter, station, attribute, command, address, count, data);
      Ok(body + U16Be(Crc16.CrcBase(body) as int))
  }

  /** What `_build_telegram` emits once the counter has been stepped to
      `counter`: a request. */
  function Telegram(counter: Byte, station: int, command: int, address: int, count: int, data: Bytes): Result<Bytes>
  {
    Frame(counter, station, ATTR_REQUEST, command, address, count, data)
  }

  /** The counter step of `_build_telegram`: modulo 256, so the telegram
      number always fits its byte. */
  function NextCounter(c: Byte): (n: Byte)
    ensures c < 0xFF ==> n == c + 1
    ensures c == 0xFF ==> n == 0
  {
    (c + 1) % 0x100
  }

  /** The counter after `k` further telegrams. */
  function CounterAfter(c: Byte, k: nat): Byte
  {
    if k == 0 then c else NextCounter(CounterAfter(c, k - 1))
  }

  /** `k` steps of the counter add `k` modulo 256. */
  lemma {:induction false} CounterAfterIsModular(c: Byte, k: nat)
    ensures CounterAfter(c, k) == (c + k) % 0x100
  {
    if k > 0 {
      CounterAfterIsModular(c, k - 1);
      var q, m := (c + k - 1) / 0x100, (c + k - 1) % 0x100;
      assert c + k == 0x100 * q + m + 1;
      if m < 0xFF {
        assert (c + k) % 0x100 == m + 1;
      } else {
        assert c + k == 0x100 * (q + 1);
      }
    }
  }

  /** Every field of a frame sits at its offset and the trailer is the CRC
      of everything before it. */
  lemma FrameLayout(counter: Byte, station: int, attribute: Byte, command: int,
                    address: int, count: int, data: Bytes)
    requires Frame(counter, station, attribute, command, address, count, data).Ok?
    ensures var t := Frame(counter, station, attribute, command, address, count, data).value;
      t[0] == counter && t[1] == station && t[2] == attribute && t[3] == command
      && DecodeU16Be(t[4..6]) == address && DecodeU16Be(t[6..8]) == count
      && t[8..|t| - 2] == data
      && DecodeU16Be(t[|t| - 2..]) == Crc16.CrcBase(t[..|t| - 2]) as int
  {
    var t := Frame(counter, station, attribute, command, address, count, data).value;
    var body := FrameBody(counter, station, attribute, command, address, count, data);
    assert t == body + U16Be(Crc16.CrcBase(body) as int);
    FrameHeader(counter, station, attribute, command, address, count, data);
    assert t[..|t| - 2] == body;
    assert t[|t| - 2..] == U16Be(Crc16.CrcBase(body) as int);
    DecodeU16BeIff(t[|t| - 2..], Crc16.CrcBase(body) as int);
    assert t[8..|t| - 2] == body[8..];
    assert t[4..6] == body[4..6] && t[6..8] == body[6..8];
  }

  lemma FrameHeader(counter: Byte, station: Byte, attribute: Byte, command: Byte,
                    address: Word16, count: Word16, data: Bytes)
    ensures var b := FrameBody(counter, station, attribute, command, address, count, data);
      b[0] == counter && b[1] == station && b[2] == attribute && b[3] == command
      && DecodeU16Be(b[4..6]) == address && DecodeU16Be(b[6..8]) == count
      && b[8..] == data
  {
    var b := FrameBody(counter, station, attribute, command, address, count, data);
    assert b[4..6] == U16Be(address);
    assert b[6..8] == U16Be(count);
    DecodeU16BeIff(U16Be(address), address);
    DecodeU16BeIff(U16Be(count), count);
  }

  // ---------------------------------------------------------------------
  // Response check

  /** `_validate_telegram`: too short, then the CRC over all but the last
      two bytes, then the attribute byte (offset 2) must mark a response or
      an acknowledgement. There is no telegram-number check. */
  function ValidateTelegram(t: Bytes): (r: Outcome)
    ensures r.Pass? ==> |t| >= MIN_TELEGRAM_SIZE && (t[2] == ATTR_RESPONSE || t[2] == ATTR_ACK)
                        && DecodeU16Be(t[|t| - 2..]) == Crc16.CrcBase(t[..|t| - 2]) as int
    ensures |t| < MIN_TELEGRAM_SIZE <==> r == Fail(ProtocolError(TooShort))
    ensures |t| >= MIN_TELEGRAM_SIZE && DecodeU16Be(t[|t| - 2..]) != Crc16.CrcBase(t[..|t| - 2]) as int ==>
              r == Fail(CrcError)
    ensures |t| >= MIN_TELEGRAM_SIZE && DecodeU16Be(t[|t| - 2..]) == Crc16.CrcBase(t[..|t| - 2]) as int
            && t[2] != ATTR_RESPONSE && t[2] != ATTR_ACK ==>
              r == Fail(ProtocolError(InvalidAttribute))
  {
    if |t| < MIN_TELEGRAM_SIZE then Fail(ProtocolError(TooShort))
    else if DecodeU16Be(t[|t| - 2..]) != Crc16.CrcBase(t[..|t| - 2]) as int then Fail(CrcError)
    else if t[2] != ATTR_RESPONSE && t[2] != ATTR_ACK then Fail(ProtocolError(InvalidAttribute))
    else Pass
  }

  /** A response or acknowledgement frame of at least twelve bytes passes
      the check, and its data (`response[8:-2]`) is the payload it was
      built with. */
  lemma FrameRoundTrip(counter: Byte, station: int, attribute: Byte, command: int,
                       address: int, count: int, data: Bytes)
    requires attribute == ATTR_RESPONSE || attribute == ATTR_ACK
    requires |data| >= 2
    requires Frame(counter, station, attribute, command, address, count, data).Ok?
    ensures var t := Frame(counter, station, attribute, command, address, count, data).value;
      ValidateTelegram(t) == Pass && ResponseData(t) == data
  {
    FrameLayout(counter, station, attribute, command, address, count, data);
  }

  /** The engine's own request, echoed back, fails the attribute check. */
  lemma RequestEchoRejected(counter: Byte, station: int, command: int, address: int, count: int, data: Bytes)
    requires |data| >= 2
    requires Telegram(counter, station, command, address, count, data).Ok?
    ensures ValidateTelegram(Telegram(counter, station, command, address, count, data).value)
            == Fail(ProtocolError(InvalidAttribute))
  {
    FrameLayout(counter, station, ATTR_REQUEST, command, address, count, data);
  }

  /** Replacing the CRC trailer of a telegram whose CRC checks out by any
      other two bytes makes the check fail with a CRC error. */
  lemma CrcTamperDetected(t: Bytes, trailer: Bytes)
    requires |t| >= MIN_TELEGRAM_SIZE
    requires DecodeU16Be(t[|t| - 2..]) == Crc16.CrcBase(t[..|t| - 2]) as int
    requires |trailer| == 2 && trailer != t[|t| - 2..]
    ensures ValidateTelegram(t[..|t| - 2] + trailer) == Fail(CrcError)
  {
    var u := t[..|t| - 2] + trailer;
    assert u[..|u| - 2] == t[..|t| - 2];
    assert u[|u| - 2..] == trailer;
    DecodeU16BeIff(trailer, Crc16.CrcBase(t[..|t| - 2]) as int);
    DecodeU16BeIff(t[|t| - 2..], Crc16.CrcBase(t[..|t| - 2]) as int);
  }

  // ---------------------------------------------------------------------
  // Reading a checked reply

  /** `response[8:-2]`: the bytes between the address/count fields and the
      CRC. */
  function ResponseData(response: Bytes): (data: Bytes)
    requires |response| >= 10
    ensures |data| == |response| - 10
  {
    response[8..|response| - 2]
  }

  /** The transport's reply after `_validate_telegram`: a transport error
      passes through, a reply that fails the check becomes its error. */
  function Checked(reply: Result<Bytes>): (r: Result<Bytes>)
    ensures r.Ok? ==> reply == r && ValidateTelegram(r.value) == Pass
    ensures reply.Err? ==> r == reply
  {
    if reply.Err? then reply
    else match ValidateTelegram(reply.value)
      case Fail(e) => Err(e)
      case Pass => reply
  }

  /** The register loop of `read_registers`: `count` words from the front
      of the data; a data slice shorter than four bytes makes
      struct.unpack raise. Extra bytes are ignored. */
  function RegistersOf(data: Bytes, count: nat): (r: Result<seq<Word32>>)
    ensures r.Ok? <==> |data| >= 4 * count
    ensures r.Err? ==> r.error == StructError
    ensures r.Ok? ==> |r.value| == count && EncodeWords(r.value) == data[..4 * count]
  {
    if |data| < 4 * count then Err(StructError)
    else (EncodeWordsOfWords(data[..4 * count]); Ok(Words(data[..4 * count])))
  }

  /** The loop of `read_registers`, unpacking one word per iteration and
      stopping at the first short slice. */
  method UnpackRegisters(data: Bytes, count: nat) returns (r: Result<seq<Word32>>)
    ensures r == RegistersOf(data, count)
  {
    var registers: seq<Word32> := [];
    for i := 0 to count
      invariant |registers| == i && 4 * i <= |data|
      invariant forall j :: 0 <= j < i ==> registers[j] == DecodeU32Be(data[4 * j .. 4 * j + 4])
    {
      if 4 * (i + 1) > |data| {
        return Err(StructError);
      }
      registers := registers + [DecodeU32Be(data[4 * i .. 4 * i + 4])];
    }
    forall j | 0 <= j < count
      ensures registers[j] == Words(data[..4 * count])[j]
    {
      WordsAt(data[..4 * count], j);
      assert data[..4 * count][4 * j .. 4 * j + 4] == data[4 * j .. 4 * j + 4];
    }
    assert registers == Words(data[..4 * count]);
    r := Ok(registers);
  }

  /** The flag loop of `read_flags`, which appends while fewer than `count`
      flags are collected (no early exit) and returns `flags[:count]`. */
  method UnpackFlags(data: Bytes, count: Word16) returns (flags: seq<bool>)
    ensures flags == FlagBits(data, count)
  {
    flags := [];
    for k := 0 to |data|
      invariant |flags| == if count < 8 * k then count else 8 * k
      invariant forall j :: 0 <= j < |flags| ==> flags[j] == Bit(data[j / 8], j % 8)
    {
      for bit := 0 to 8
        invariant |flags| == if count < 8 * k + bit then count else 8 * k + bit
        invariant forall j :: 0 <= j < |flags| ==> flags[j] == Bit(data[j / 8], j % 8)
      {
        if |flags| < count {
          flags := flags + [Bit(data[k], bit)];
        }
      }
    }
    // The closing `flags[:count]` changes nothing: the loop never collects
    // more than `count` flags.
  }

  /** A write operation only needs the reply to pass the check. */
  function Acknowledged(reply: Result<Bytes>): (r: Outcome)
    ensures r.Pass? <==> Checked(reply).Ok?
  {
    match Checked(reply)
    case Err(e) => Fail(e)
    case Ok(_) => Pass
  }

  predicate RegisterRangeOk(address: int, count: int)
  {
    0 <= address <= MAX_REGISTER_ADDRESS && 1 <= count <= MAX_REGISTER_COUNT
  }

  predicate RegisterValueOk(address: int, value: int)
  {
    0 <= address <= MAX_REGISTER_ADDRESS && 0 <= value <= MAX_REGISTER_VALUE
  }

  /** What `read_registers` returns for an in-range request whose telegram
      was packed, given the transport's reply. */
  function ReadRegistersResult(reply: Result<Bytes>, count: nat): (r: Result<seq<Word32>>)
    ensures r.Ok? ==> |r.value| == count
  {
    match Checked(reply)
    case Err(e) => Err(e)
    case Ok(response) => RegistersOf(ResponseData(response), count)
  }

  /** What an in-range `read_registers` sends and returns once the counter
      has been stepped to `counter`: nothing is sent when the station does
      not fit its byte. */
  function ReadRegistersOutcome(counter: Byte, station: int, address: int, count: int, reply: Result<Bytes>)
    : (o: (Option<Bytes>, Result<seq<Word32>>))
    requires RegisterRangeOk(address, count)
    ensures !IsByte(station) ==> o == (None, Err(StructError))
    ensures IsByte(station) ==> o.0.Some? && o.1 == ReadRegistersResult(reply, count)
  {
    var t := Telegram(counter, station, CMD_READ_REGISTER, address, count, []);
    if t.Err? then (None, Err(StructError)) else (Some(t.value), ReadRegistersResult(reply, count))
  }

  // ---------------------------------------------------------------------
  // Version strings and device identification

  /** `_format_version`: 0 is "Unknown", anything else the bytes 2, 1 and 0
      in decimal, separated by dots. */
  function FormatVersion(version: Word32): string
  {
    if version == 0 then "Unknown"
    else Text.Decimal((version / 0x1_0000) % 0x100) + "." + Text.Decimal((version / 0x100) % 0x100)
         + "." + Text.Decimal(version % 0x100)
  }

  /** Reads "major.minor.patch" back into a number. */
  function ParseVersion(s: string): nat
  {
    var (major, rest) := Text.SplitAtDot(s);
    var (minor, patch) := Text.SplitAtDot(rest);
    Text.ParseDecimal(major) * 0x1_0000 + Text.ParseDecimal(minor) * 0x100 + Text.ParseDecimal(patch)
  }

  /** A formatted non-zero version reads back as its low 24 bits: only the
      top byte is lost, and "Unknown" is reserved for zero. */
  lemma FormatVersionRoundTrip(version: Word32)
    requires version != 0
    ensures ParseVersion(FormatVersion(version)) == version % 0x100_0000
  {
    var a, b, c := (version / 0x1_0000) % 0x100, (version / 0x100) % 0x100, version % 0x100;
    ParseDottedDecimals(a, b, c);
    ByteFields(version);
  }

  lemma ParseDottedDecimals(a: nat, b: nat, c: nat)
    ensures ParseVersion(Text.Decimal(a) + "." + Text.Decimal(b) + "." + Text.Decimal(c))
            == a * 0x1_0000 + b * 0x100 + c
  {
    var da, db, dc := Text.Decimal(a), Text.Decimal(b), Text.Decimal(c);
    Text.DecimalHasNoDot(a);
    Text.DecimalHasNoDot(b);
    assert da + "." + db + "." + dc == da + "." + (db + "." + dc);
    Text.SplitAtDotJoin(da, db + "." + dc);
    Text.SplitAtDotJoin(db, dc);
    Text.DecimalRoundTrip(a);
    Text.DecimalRoundTrip(b);
    Text.DecimalRoundTrip(c);
  }

  lemma ByteFields(v: nat)
    ensures ((v / 0x1_0000) % 0x100) * 0x1_0000 + ((v / 0x100) % 0x100) * 0x100 + v % 0x100 == v % 0x100_0000
  {
    assert v % 0x100_0000 == ((v / 0x1_0000) % 0x100) * 0x1_0000 + v % 0x1_0000;
    assert v % 0x1_0000 == ((v / 0x100) % 0x100) * 0x100 + v % 0x100;
  }

  datatype DeviceInfo = DeviceInfo(firmwareVersion: Word32, productType: string, hwVersion: Word32,
                                   serialNumber: string, firmwareVersionStr: string, hwVersionStr: string)

  /** The dictionary `get_device_info` returns when any step fails. */
  const FALLBACK_INFO: DeviceInfo :=
    DeviceInfo(0, "SAIA PCD (Unknown)", 0, "UNKNOWN", "Unknown", "Unknown")

  /** How `get_device_info` assembles its result from the words read: the
      product type decodes leniently (dropping non-ASCII bytes), NULs are
      stripped at both ends, and an empty name becomes "SAIA PCD". */
  function DeviceInfoOf(firmware: Word32, product: seq<Word32>, hw: Word32, serial: seq<Word32>): DeviceInfo
    requires |product| == 4 && |serial| == 2
  {
    var name := Text.StripNul(Text.AsciiIgnore(EncodeWords(product)));
    DeviceInfo(firmware, if name == [] then "SAIA PCD" else name, hw,
               Text.Hex8(serial[0]) + Text.Hex8(serial[1]),
               FormatVersion(firmware), FormatVersion(hw))
  }

  /** The assembled identification always has a product name, a serial
      number of sixteen hex digits that reads back as the two registers,
      and version strings that read back as the registers' low 24 bits. */
  lemma DeviceInfoOfProperties(firmware: Word32, product: seq<Word32>, hw: Word32, serial: seq<Word32>)
    requires |product| == 4 && |serial| == 2
    ensures var d := DeviceInfoOf(firmware, product, hw, serial);
      d.productType != [] && |d.productType| <= 16
      && |d.serialNumber| == 16
      && Text.ParseHex(d.serialNumber[..8]) == serial[0]
      && Text.ParseHex(d.serialNumber[8..]) == serial[1]
      && (firmware != 0 ==> ParseVersion(d.firmwareVersionStr) == firmware % 0x100_0000)
      && (hw != 0 ==> ParseVersion(d.hwVersionStr) == hw % 0x100_0000)
  {
    Text.Hex8RoundTrip(serial[0]);
    Text.Hex8RoundTrip(serial[1]);
    var sn := Text.Hex8(serial[0]) + Text.Hex8(serial[1]);
    assert sn[..8] == Text.Hex8(serial[0]);
    assert sn[8..] == Text.Hex8(serial[1]);
    Text.StripNulFrames(Text.AsciiIgnore(EncodeWords(product)));
    if firmware != 0 {
      FormatVersionRoundTrip(firmware);
    }
    if hw != 0 {
      FormatVersionRoundTrip(hw);
    }
  }

  /** The identification from the transport's four replies (R600,
      R605-R608, R609, R611-R612) once the station fits its byte: the
      assembled result when every read succeeds, the fallback otherwise. */
  function DeviceInfoFrom(r1: Result<Bytes>, r2: Result<Bytes>, r3: Result<Bytes>, r4: Result<Bytes>): DeviceInfo
  {
    var fw, product, hw, serial :=
      ReadRegistersResult(r1, 1), ReadRegistersResult(r2, 4), ReadRegistersResult(r3, 1), ReadRegistersResult(r4, 2);
    if fw.Ok? && product.Ok? && hw.Ok? && serial.Ok?
    then DeviceInfoOf(fw.value[0], product.value, hw.value[0], serial.value)
    else FALLBACK_INFO
  }

  /** The fallback is returned exactly when one of the four reads fails: a
      successful identification can never be mistaken for it. */
  lemma FallbackOnlyOnFailure(r1: Result<Bytes>, r2: Result<Bytes>, r3: Result<Bytes>, r4: Result<Bytes>)
    ensures DeviceInfoFrom(r1, r2, r3, r4) == FALLBACK_INFO
            <==> !(ReadRegistersResult(r1, 1).Ok? && ReadRegistersResult(r2, 4).Ok?
                   && ReadRegistersResult(r3, 1).Ok? && ReadRegistersResult(r4, 2).Ok?)
  {
    if ReadRegistersResult(r1, 1).Ok? && ReadRegistersResult(r2, 4).Ok?
       && ReadRegistersResult(r3, 1).Ok? && ReadRegistersResult(r4, 2).Ok? {
      var fw, product, hw, serial := ReadRegistersResult(r1, 1).value, ReadRegistersResult(r2, 4).value,
                                     ReadRegistersResult(r3, 1).value, ReadRegistersResult(r4, 2).value;
      DeviceInfoOfProperties(fw[0], product, hw[0], serial);
    }
  }

  // ---------------------------------------------------------------------
  // The engine

  /** `SBusProtocolBase`: the station address and the telegram counter. */
  class SBusProtocolBase {
    const station: int
    var telegramCounter: Byte

    constructor (station: int)
      ensures this.station == station && telegramCounter == 0
    {
      this.station := station;
      telegramCounter := 0;
    }

    /** `_build_telegram`: steps the counter (even when packing then
        fails) and lays out a request. */
    method BuildTelegram(command: int, address: int, count: int, data: Bytes) returns (r: Result<Bytes>)
      modifies this
      ensures telegramCounter == NextCounter(old(telegramCounter))
      ensures r == Telegram(telegramCounter, station, command, address, count, data)
    {
      telegramCounter := (telegramCounter + 1) % 0x100;
      if !(IsByte(station) && IsByte(command)) {
        return Err(StructError);
      }
      if !(IsWord16(address) && IsWord16(count)) {
        return Err(StructError);
      }
      var body := FrameBody(telegramCounter, station, ATTR_REQUEST, command, address, count, data);
      var crc := Crc16.CalculateCrcBase(body);
      r := Ok(body + U16Be(crc as int));
    }

    /** `read_registers` */
    method ReadRegisters(address: int, count: int, reply: Result<Bytes>)
      returns (sent: Option<Bytes>, r: Result<seq<Word32>>)
      modifies this
      ensures !RegisterRangeOk(address, count) ==>
                r == Err(ValueError) && sent == None && telegramCounter == old(telegramCounter)
      ensures RegisterRangeOk(address, count) ==>
                telegramCounter == NextCounter(old(telegramCounter))
                && (sent, r) == ReadRegistersOutcome(telegramCounter, station, address, count, reply)
    {
      if !RegisterRangeOk(address, count) {
        return None, Err(ValueError);
      }
      var t := BuildTelegram(CMD_READ_REGISTER, address, count, []);
      if t.Err? {
        return None, Err(t.error);
      }
      sent := Some(t.value);
      var response := Checked(reply);
      if response.Err? {
        return sent, Err(response.error);
      }
      r := UnpackRegisters(ResponseData(response.value), count);
    }

    /** `write_register`: one register, the value as a 32-bit payload. */
    method WriteRegister(address: int, value: int, reply: Result<Bytes>)
      returns (sent: Option<Bytes>, r: Outcome)
      modifies this
      ensures !RegisterValueOk(address, value) ==>
                r == Fail(ValueError) && sent == None && telegramCounter == old(telegramCounter)
      ensures RegisterValueOk(address, value) ==>
                telegramCounter == NextCounter(old(telegramCounter))
                && var t := Telegram(telegramCounter, station, CMD_WRITE_REGISTER, address, 1, U32Be(value));
                   (t.Err? ==> sent == None && r == Fail(StructError))
                   && (t.Ok? ==> sent == Some(t.value) && r == Acknowledged(reply))
    {
      if !RegisterValueOk(address, value) {
        return None, Fail(ValueError);
      }
      var t := BuildTelegram(CMD_WRITE_REGISTER, address, 1, U32Be(value));
      if t.Err? {
        return None, Fail(t.error);
      }
      sent := Some(t.value);
      r := Acknowledged(reply);
    }

    /** `read_flags`: no range checks of its own; an address or count that
        does not fit 16 bits fails when packing. */
    method ReadFlags(address: int, count: int, reply: Result<Bytes>)
      returns (sent: Option<Bytes>, r: Result<seq<bool>>)
      modifies this
      ensures telegramCounter == NextCounter(old(telegramCounter))
      ensures var t := Telegram(telegramCounter, station, CMD_READ_FLAG, address, count, []);
        (t.Err? ==> sent == None && r == Err(StructError))
        && (t.Ok? ==> sent == Some(t.value)
                      && r == match Checked(reply)
                              case Err(e) => Err(e)
                              case Ok(response) => Ok(FlagBits(ResponseData(response), count)))
    {
      var t := BuildTelegram(CMD_READ_FLAG, address, count, []);
      if t.Err? {
        return None, Err(t.error);
      }
      sent := Some(t.value);
      var response := Checked(reply);
      if response.Err? {
        return sent, Err(response.error);
      }
      var flags := UnpackFlags(ResponseData(response.value), count);
      r := Ok(flags);
    }

    /** `write_flag`: count 1 and a one-byte payload, 1 or 0. */
    method WriteFlag(address: int, value: bool, reply: Result<Bytes>)
      returns (sent: Option<Bytes>, r: Outcome)
      modifies this
      ensures telegramCounter == NextCounter(old(telegramCounter))
      ensures var t := Telegram(telegramCounter, station, CMD_WRITE_FLAG, address, 1, [if value then 1 else 0]);
        (t.Err? ==> sent == None && r == Fail(StructError))
        && (t.Ok? ==> sent == Some(t.value) && r == Acknowledged(reply))
    {
      var t := BuildTelegram(CMD_WRITE_FLAG, address, 1, [if value then 1 else 0]);
      if t.Err? {
        return None, Fail(t.error);
      }
      sent := Some(t.value);
      r := Acknowledged(reply);
    }

    /** `get_device_info`: four register reads in order; any failure is
        caught and the fallback dictionary returned. `attempts` counts the
        reads made, each stepping the counter once. */
    method GetDeviceInfo(r1: Result<Bytes>, r2: Result<Bytes>, r3: Result<Bytes>, r4: Result<Bytes>)
      returns (info: DeviceInfo, ghost attempts: nat)
      modifies this
      ensures 1 <= attempts <= 4
      ensures telegramCounter == CounterAfter(old(telegramCounter), attempts)
      ensures !IsByte(station) ==> info == FALLBACK_INFO && attempts == 1
      ensures IsByte(station) ==>
                attempts == (if ReadRegistersResult(r1, 1).Err? then 1
                             else if ReadRegistersResult(r2, 4).Err? then 2
                             else if ReadRegistersResult(r3, 1).Err? then 3
                             else 4)
      ensures IsByte(station) ==> info == DeviceInfoFrom(r1, r2, r3, r4)
    {
      ghost var before := telegramCounter;
      attempts := 1;
      var _, fw := ReadRegisters(SYSREG_FIRMWARE, 1, r1);
      assert telegramCounter == CounterAfter(before, 1);
      assert IsByte(station) ==> fw == ReadRegistersResult(r1, 1);
      assert !IsByte(station) ==> fw.Err?;
      if fw.Err? {
        return FALLBACK_INFO, attempts;
      }
      attempts := 2;
      var _, product := ReadRegisters(SYSREG_PRODUCT_TYPE_START, SYSREG_PRODUCT_TYPE_END - SYSREG_PRODUCT_TYPE_START + 1, r2);
      assert telegramCounter == CounterAfter(before, 2);
      assert IsByte(station) ==> product == ReadRegistersResult(r2, 4);
      assert !IsByte(station) ==> product.Err?;
      if product.Err? {
        return FALLBACK_INFO, attempts;
      }
      attempts := 3;
      var _, hw := ReadRegisters(SYSREG_HW_VERSION, 1, r3);
      assert telegramCounter == CounterAfter(before, 3);
      assert IsByte(station) ==> hw == ReadRegistersResult(r3, 1);
      assert !IsByte(station) ==> hw.Err?;
      if hw.Err? {
        return FALLBACK_INFO, attempts;
      }
      attempts := 4;
      var _, serial := ReadRegisters(SYSREG_SERIAL_START, SYSREG_SERIAL_END - SYSREG_SERIAL_START + 1, r4);
      assert telegramCounter == CounterAfter(before, 4);
      assert IsByte(station) ==> serial == ReadRegistersResult(r4, 2);
      assert !IsByte(station) ==> serial.Err?;
      if serial.Err? {
        return FALLBACK_INFO, attempts;
      }
      info := DeviceInfoOf(fw.value[0], product.value, hw.value[0], serial.value);
    }
  }

  /** Unlike the Ether-S-Bus engine's 16-bit sequence number, the telegram
      counter is reduced modulo 256 before packing, so a request with a
      byte-sized station and command and 16-bit address and count is always
      buildable, whatever the counter's history. */
  lemma CounterAlwaysFits(c: Byte, station: int, command: int, address: int, count: int, data: Bytes)
    requires IsByte(station) && IsByte(command) && IsWord16(address) && IsWord16(count)
    ensures Telegram(NextCounter(c), station, command, address, count, data).Ok?
  {
  }
}
