/** The Ether-S-Bus engine (custom_components/sbus/sbus_protocol.py): the
    telegram layout, the response validation, the 16-bit sequence counter,
    the datagram response queue and the register/flag operations built on
    them. One request/response exchange is abstracted as the list of
    datagrams that arrive after the send and before the deadline. */
module EtherSBus {
  import opened Bytes
  import opened SBusErrors
  import opened SBusConst
  import Crc16
  import Text

  // ---------------------------------------------------------------------
  // Telegram layout

  /** The bytes `_build_telegram` emits when the sequence counter hands it
      `sequence`: a 32-bit total length, version 1, type 0 (two bytes),
      sequence, attribute, station and command bytes, the payload and a
      16-bit CRC over everything before it. Every field packed with "B"
      raises struct.error outside 0..255, and so does a total length that
      does not fit in 32 bits. */
  function Telegram(sequence: int, attribute: int, station: int, command: int, data: Bytes): (r: Result<Bytes>)
    ensures r.Ok? <==> IsByte(sequence) && IsByte(attribute) && IsByte(station) && IsByte(command)
                       && 13 + |data| < 0x1_0000_0000
    ensures r.Err? ==> r.error == StructError
    ensures r.Ok? ==> |r.value| == 13 + |data|
  {
    if !(IsByte(sequence) && IsByte(attribute) && IsByte(station) && IsByte(command)) then Err(StructError)
    else if 13 + |data| >= 0x1_0000_0000 then Err(StructError)
    else
      var prefix := TelegramPrefix(sequence, attribute, station, command, data);
      Ok(prefix + U16Be(Crc16.Crc(prefix) as int))
  }

  /** The part of a telegram the CRC covers. */
  function TelegramPrefix(sequence: Byte, attribute: Byte, station: Byte, command: Byte, data: Bytes): (p: Bytes)
    requires 13 + |data| < 0x1_0000_0000
    ensures |p| == 11 + |data|
  {
    U32Be(13 + |data|) + [0x01, 0x00, 0x00, sequence, attribute, station, command] + data
  }

  /** Every field of a built telegram sits at its documented offset, and
      the trailer is the CRC of everything before it. */
  lemma TelegramLayout(sequence: int, attribute: int, station: int, command: int, data: Bytes)
    requires Telegram(sequence, attribute, station, command, data).Ok?
    ensures var t := Telegram(sequence, attribute, station, command, data).value;
      DecodeU32Be(t[..4]) == |t|
      && t[4] == 0x01 && t[5] == 0x00 && t[6] == 0x00
      && t[7] == sequence && t[8] == attribute && t[9] == station && t[10] == command
      && t[11..|t| - 2] == data
      && DecodeU16Be(t[|t| - 2..]) == Crc16.Crc(t[..|t| - 2]) as int
  {
    var t := Telegram(sequence, attribute, station, command, data).value;
    var prefix := TelegramPrefix(sequence, attribute, station, command, data);
    assert t == prefix + U16Be(Crc16.Crc(prefix) as int);
    assert t[..|t| - 2] == prefix;
    TelegramHeader(sequence, attribute, station, command, data);
    TelegramTrailer(prefix, Crc16.Crc(prefix) as int);
    assert t[11..|t| - 2] == prefix[11..];
  }

  lemma TelegramHeader(sequence: Byte, attribute: Byte, station: Byte, command: Byte, data: Bytes)
    requires 13 + |data| < 0x1_0000_0000
    ensures var p := TelegramPrefix(sequence, attribute, station, command, data);
      DecodeU32Be(p[..4]) == 13 + |data|
      && p[4] == 0x01 && p[5] == 0x00 && p[6] == 0x00
      && p[7] == sequence && p[8] == attribute && p[9] == station && p[10] == command
      && p[11..] == data
  {
    var p := TelegramPrefix(sequence, attribute, station, command, data);
    assert p[..4] == U32Be(13 + |data|);
    U32BeRoundTrip(13 + |data|);
  }

  lemma TelegramTrailer(prefix: Bytes, crc: Word16)
    ensures var t := prefix + U16Be(crc);
      t[..|t| - 2] == prefix && DecodeU16Be(t[|t| - 2..]) == crc
  {
    var t := prefix + U16Be(crc);
    assert t[|t| - 2..] == U16Be(crc);
    DecodeU16BeIff(U16Be(crc), crc);
  }

  // ---------------------------------------------------------------------
  // Response validation

  /** `response[11:-2]` with Python's slice semantics: a 12-byte response
      has an empty payload. */
  function Payload(response: Bytes): Bytes
  {
    if |response| >= 13 then response[11..|response| - 2] else []
  }

  /** `_validate_response`: the checks run in the order too short, length
      field, CRC, sequence byte, attribute byte; the first that fails
      decides the error. On success the payload between the command byte
      and the CRC is returned. */
  function ValidateResponse(response: Bytes, expectedSequence: int): (r: Result<Bytes>)
    ensures r.Ok? ==> |response| >= MIN_TELEGRAM_SIZE && DecodeU32Be(response[..4]) == |response|
                      && DecodeU16Be(response[|response| - 2..]) == Crc16.Crc(response[..|response| - 2]) as int
                      && response[7] == expectedSequence
                      && (response[8] == ATTR_RESPONSE || response[8] == ATTR_ACK)
                      && r.value == Payload(response)
    ensures |response| < MIN_TELEGRAM_SIZE <==> r == Err(ProtocolError(TooShort))
    ensures |response| >= MIN_TELEGRAM_SIZE && DecodeU32Be(response[..4]) != |response| ==>
              r == Err(ProtocolError(LengthMismatch))
    ensures |response| >= MIN_TELEGRAM_SIZE && DecodeU32Be(response[..4]) == |response|
            && DecodeU16Be(response[|response| - 2..]) != Crc16.Crc(response[..|response| - 2]) as int ==>
              r == Err(CrcError)
    ensures |response| >= MIN_TELEGRAM_SIZE && DecodeU32Be(response[..4]) == |response|
            && DecodeU16Be(response[|response| - 2..]) == Crc16.Crc(response[..|response| - 2]) as int
            && response[7] != expectedSequence ==>
              r == Err(ProtocolError(SequenceMismatch))
    ensures |response| >= MIN_TELEGRAM_SIZE && DecodeU32Be(response[..4]) == |response|
            && DecodeU16Be(response[|response| - 2..]) == Crc16.Crc(response[..|response| - 2]) as int
            && response[7] == expectedSequence
            && response[8] != ATTR_RESPONSE && response[8] != ATTR_ACK ==>
              r == Err(ProtocolError(InvalidAttribute))
  {
    if |response| < MIN_TELEGRAM_SIZE then Err(ProtocolError(TooShort))
    else if DecodeU32Be(response[..4]) != |response| then Err(ProtocolError(LengthMismatch))
    else if DecodeU16Be(response[|response| - 2..]) != Crc16.Crc(response[..|response| - 2]) as int then Err(CrcError)
    else if response[7] != expectedSequence then Err(ProtocolError(SequenceMismatch))
    else if response[8] != ATTR_RESPONSE && response[8] != ATTR_ACK then Err(ProtocolError(InvalidAttribute))
    else Ok(Payload(response))
  }

  /** A telegram built as a response or acknowledgement validates against
      its own sequence number and yields exactly the payload it carries. */
  lemma TelegramRoundTrip(sequence: int, attribute: int, station: int, command: int, data: Bytes)
    requires attribute == ATTR_RESPONSE || attribute == ATTR_ACK
    requires Telegram(sequence, attribute, station, command, data).Ok?
    ensures ValidateResponse(Telegram(sequence, attribute, station, command, data).value, sequence) == Ok(data)
  {
    TelegramLayout(sequence, attribute, station, command, data);
  }

  /** A request telegram echoed back unchanged is rejected by its
      attribute byte, whatever sequence is expected of it. */
  lemma RequestEchoRejected(sequence: int, station: int, command: int, data: Bytes)
    requires Telegram(sequence, ATTR_REQUEST, station, command, data).Ok?
    ensures ValidateResponse(Telegram(sequence, ATTR_REQUEST, station, command, data).value, sequence)
            == Err(ProtocolError(InvalidAttribute))
  {
    TelegramLayout(sequence, ATTR_REQUEST, station, command, data);
  }

  /** Replacing the CRC trailer of a telegram whose length and CRC check
      out (every built telegram, by `TelegramLayout`) by any other two bytes
      makes validation fail with a CRC error, whatever sequence is
      expected. */
  lemma CrcTamperDetected(t: Bytes, trailer: Bytes, expectedSequence: int)
    requires |t| >= MIN_TELEGRAM_SIZE && DecodeU32Be(t[..4]) == |t|
    requires DecodeU16Be(t[|t| - 2..]) == Crc16.Crc(t[..|t| - 2]) as int
    requires |trailer| == 2 && trailer != t[|t| - 2..]
    ensures ValidateResponse(t[..|t| - 2] + trailer, expectedSequence) == Err(CrcError)
  {
    var u := t[..|t| - 2] + trailer;
    assert u[..4] == t[..4];
    assert u[..|u| - 2] == t[..|t| - 2];
    assert u[|u| - 2..] == trailer;
    DecodeU16BeIff(trailer, Crc16.Crc(t[..|t| - 2]) as int);
    DecodeU16BeIff(t[|t| - 2..], Crc16.Crc(t[..|t| - 2]) as int);
  }

  // ---------------------------------------------------------------------
  // Sequence counter

  /** `_get_next_sequence`'s step: one more, wrapping from 65535 to 0. */
  function NextSequence(s: Word16): (n: Word16)
    ensures s < 0xFFFF ==> n == s + 1
    ensures s == 0xFFFF ==> n == 0
  {
    (s + 1) % 0x1_0000
  }

  /** The counter after `k` further steps. */
  function Advance(s: Word16, k: nat): (n: Word16)
  {
    (s + k) % 0x1_0000
  }

  lemma AdvanceSteps(s: Word16, j: nat, k: nat)
    ensures Advance(s, 0) == s
    ensures Advance(s, 1) == NextSequence(s)
    ensures Advance(Advance(s, j), k) == Advance(s, j + k)
  {
  }

  /** The sequence number the operation hands to `_send_and_receive` as the
      one to expect: the first of the two values it draws. */
  function ExpectedSequence(before: Word16): Word16
  {
    NextSequence(before)
  }

  /** The sequence number `_build_telegram` draws and writes into the
      telegram: the second of the two. */
  function SentSequence(before: Word16): Word16
  {
    NextSequence(NextSequence(before))
  }

  // ---------------------------------------------------------------------
  // One exchange, and how each operation reads its payload

  /** The datagrams left in the queue after the first one is taken. */
  function Leftover(arrivals: seq<Bytes>): seq<Bytes>
  {
    if arrivals == [] then [] else arrivals[1..]
  }

  /** What `_send_and_receive` returns once connected: the first datagram to
      arrive after the send, validated; none before the deadline is a
      timeout. */
  function Received(arrivals: seq<Bytes>, expectedSequence: int): (r: Result<Bytes>)
    ensures arrivals == [] <==> r == Err(TimeoutError)
  {
    if arrivals == [] then Err(TimeoutError) else ValidateResponse(arrivals[0], expectedSequence)
  }

  /** The outcome of building a telegram and handing it to
      `_send_and_receive`: what was put on the wire, and the payload or the
      error. Nothing is sent when the telegram cannot be packed or there is
      no endpoint. */
  function Exchange(t: Result<Bytes>, connected: bool, arrivals: seq<Bytes>, expectedSequence: int): (Option<Bytes>, Result<Bytes>)
  {
    if t.Err? then (None, Err(t.error))
    else if !connected then (None, Err(ProtocolError(NotConnected)))
    else (Some(t.value), Received(arrivals, expectedSequence))
  }

  /** `read_registers` after the exchange: the payload must hold exactly
      four bytes per requested register. */
  function RegistersOf(payload: Result<Bytes>, count: nat): (r: Result<seq<Word32>>)
    ensures r.Ok? <==> payload.Ok? && |payload.value| == 4 * count
    ensures r.Ok? ==> |r.value| == count && EncodeWords(r.value) == payload.value
    ensures payload.Err? ==> r == Err(payload.error)
    ensures payload.Ok? && |payload.value| != 4 * count ==> r == Err(ProtocolError(UnexpectedLength))
  {
    if payload.Err? then Err(payload.error)
    else if |payload.value| != 4 * count then Err(ProtocolError(UnexpectedLength))
    else (EncodeWordsOfWords(payload.value); Ok(Words(payload.value)))
  }

  /** `read_flags` after the exchange: flag `i` is bit `i mod 8` of byte
      `i div 8`, and at most `count` of them are returned. */
  function FlagsOf(payload: Result<Bytes>, count: int): Result<seq<bool>>
  {
    if payload.Err? then Err(payload.error) else Ok(FlagBits(payload.value, count))
  }

  /** A write operation discards the payload. */
  function Acknowledged(payload: Result<Bytes>): (r: Outcome)
    ensures r.Pass? <==> payload.Ok?
  {
    if payload.Err? then Fail(payload.error) else Pass
  }

  predicate RegisterRangeOk(start: int, count: int)
  {
    0 <= start <= MAX_REGISTER_ADDRESS && 1 <= count <= MAX_REGISTER_COUNT
  }

  /** What `read_registers` sends and returns for an in-range request when
      the counter stands at `before`: the request carries the start address
      (16 bits) and the count (8 bits). */
  function ReadRegistersOutcome(station: int, before: Word16, connected: bool, start: int, count: int,
                                arrivals: seq<Bytes>): (o: (Option<Bytes>, Result<seq<Word32>>))
    requires RegisterRangeOk(start, count)
    ensures o.1.Ok? ==> o.0.Some? && |o.1.value| == count
  {
    var (s, p) := Exchange(Telegram(SentSequence(before), ATTR_REQUEST, station, CMD_READ_REGISTER, U16Be(start) + [count]),
                           connected, arrivals, ExpectedSequence(before));
    (s, RegistersOf(p, count))
  }

  predicate RegisterValueOk(address: int, value: int)
  {
    0 <= address <= MAX_REGISTER_ADDRESS && 0 <= value <= MAX_REGISTER_VALUE
  }

  /** The loop of `read_registers` that unpacks one 32-bit word per four
      payload bytes. */
  method UnpackRegisters(data: Bytes, count: nat) returns (registers: seq<Word32>)
    requires |data| == 4 * count
    ensures registers == Words(data)
  {
    registers := [];
    for i := 0 to count
      invariant |registers| == i
      invariant forall j :: 0 <= j < i ==> registers[j] == DecodeU32Be(data[4 * j .. 4 * j + 4])
    {
      registers := registers + [DecodeU32Be(data[4 * i .. 4 * i + 4])];
    }
    forall j | 0 <= j < count
      ensures registers[j] == Words(data)[j]
    {
      WordsAt(data, j);
    }
  }

  /** The nested loop of `read_flags`, which stops appending once `count`
      flags are collected and then returns `flags[:count]`. */
  method UnpackFlags(data: Bytes, count: int) returns (flags: seq<bool>)
    ensures flags == FlagBits(data, count)
  {
    flags := [];
    for k := 0 to |data|
      invariant |flags| == if count < 8 * k then (if count < 0 then 0 else count) else 8 * k
      invariant forall j :: 0 <= j < |flags| ==> flags[j] == Bit(data[j / 8], j % 8)
    {
      for bit := 0 to 8
        invariant |flags| == if count < 8 * k + bit then (if count < 0 then 0 else count) else 8 * k + bit
        invariant forall j :: 0 <= j < |flags| ==> flags[j] == Bit(data[j / 8], j % 8)
      {
        if |flags| >= count {
          break;
        }
        flags := flags + [Bit(data[k], bit)];
      }
    }
    // The closing `flags[:count]` of the source changes nothing: the loop
    // never collects more than `count` flags.
  }

  // ---------------------------------------------------------------------
  // Device identification

  datatype DeviceInfo = DeviceInfo(firmwareVersion: Word32, productType: string,
                                   hwVersion: Word32, serialNumber: string)

  /** How `get_device_info` assembles its result from R600, R605-R608, R609
      and R611-R612: the product type is the four words' bytes decoded as
      strict ASCII with NULs stripped at both ends, the serial number the
      two words as eight upper-case hex digits each. */
  function DeviceInfoOf(firmware: Word32, product: seq<Word32>, hw: Word32, serial: seq<Word32>): Result<DeviceInfo>
    requires |product| == 4 && |serial| == 2
  {
    match Text.AsciiStrict(EncodeWords(product))
    case Err(e) => Err(e)
    case Ok(s) => Ok(DeviceInfo(firmware, Text.StripNul(s), hw, Text.Hex8(serial[0]) + Text.Hex8(serial[1])))
  }

  /** The identification fails exactly when a product-type byte is not
      ASCII; otherwise the serial number is sixteen hex digits that parse
      back to the two registers, and the product type is at most sixteen
      characters with no NUL at either end. */
  lemma DeviceInfoOfProperties(firmware: Word32, product: seq<Word32>, hw: Word32, serial: seq<Word32>)
    requires |product| == 4 && |serial| == 2
    ensures var r := DeviceInfoOf(firmware, product, hw, serial);
      (r.Ok? <==> forall k :: 0 <= k < 16 ==> EncodeWords(product)[k] < 0x80)
      && (r.Err? ==> r.error == UnicodeError)
    ensures var r := DeviceInfoOf(firmware, product, hw, serial);
      r.Ok? ==>
        r.value.firmwareVersion == firmware && r.value.hwVersion == hw
        && |r.value.serialNumber| == 16
        && Text.ParseHex(r.value.serialNumber[..8]) == serial[0]
        && Text.ParseHex(r.value.serialNumber[8..]) == serial[1]
        && |r.value.productType| <= 16
        && (r.value.productType == [] || (r.value.productType[0] != '\0'
                                          && r.value.productType[|r.value.productType| - 1] != '\0'))
  {
    var bytes := EncodeWords(product);
    assert |bytes| == 16;
    match Text.AsciiStrict(bytes)
    case Err(e) =>
      assert DeviceInfoOf(firmware, product, hw, serial) == Err(e);
      assert !(forall k :: 0 <= k < |bytes| ==> bytes[k] < 0x80);
      var k :| 0 <= k < 16 && bytes[k] >= 0x80;
      assert EncodeWords(product)[k] >= 0x80;
    case Ok(s) =>
      Text.Hex8RoundTrip(serial[0]);
      Text.Hex8RoundTrip(serial[1]);
      var sn := Text.Hex8(serial[0]) + Text.Hex8(serial[1]);
      assert sn[..8] == Text.Hex8(serial[0]);
      assert sn[8..] == Text.Hex8(serial[1]);
      Text.StripNulFrames(s);
  }

  // ---------------------------------------------------------------------
  // The datagram endpoint

  /** `_SBusDatagramProtocol`: the queue the datagram endpoint fills with
      every datagram it receives. */
  class DatagramQueue {
    var items: seq<Bytes>

    constructor ()
      ensures items == []
    {
      items := [];
    }

    /** `datagram_received` */
    method DatagramReceived(data: Bytes)
      modifies this
      ensures items == old(items) + [data]
    {
      items := items + [data];
    }

    /** `get_response`: the oldest datagram. The source waits for one; here
        an empty queue yields None, which the caller reads as the deadline
        passing. */
    method GetResponse() returns (r: Option<Bytes>)
      modifies this
      ensures old(items) == [] ==> r == None && items == []
      ensures old(items) != [] ==> r == Some(old(items)[0]) && items == old(items)[1..]
    {
      if items == [] {
        r := None;
      } else {
        r := Some(items[0]);
        items := items[1..];
      }
    }

    /** `clear_response`: drop every pending datagram. */
    method ClearResponse()
      modifies this
      ensures items == []
    {
      while items != []
        decreases |items|
      {
        items := items[1..];
      }
    }
  }

  // ---------------------------------------------------------------------
  // The engine

  /** `SBusProtocol`: the station address, the 16-bit sequence counter and
      the datagram endpoint (transport and protocol handler together; null
      when not connected). */
  class EtherSBusProtocol {
    const station: int
    var sequence: Word16
    var endpoint: DatagramQueue?

    constructor (station: int)
      ensures this.station == station && sequence == 0 && endpoint == null
    {
      this.station := station;
      sequence := 0;
      endpoint := null;
    }

    /** `connect`: open a fresh datagram endpoint; when opening fails the
        error propagates and nothing changes. */
    method Connect(reachable: bool) returns (r: Outcome)
      modifies this
      ensures reachable ==> r == Pass && endpoint != null && fresh(endpoint) && endpoint.items == []
      ensures !reachable ==> r == Fail(ConnectionError) && endpoint == old(endpoint)
      ensures sequence == old(sequence)
    {
      if reachable {
        endpoint := new DatagramQueue();
        r := Pass;
      } else {
        r := Fail(ConnectionError);
      }
    }

    /** `disconnect`: close and forget the endpoint, if any. */
    method Disconnect()
      modifies this
      ensures endpoint == null && sequence == old(sequence)
    {
      if endpoint != null {
        endpoint := null;
      }
    }

    /** `_get_next_sequence` */
    method GetNextSequence() returns (s: Word16)
      modifies this`sequence
      ensures sequence == NextSequence(old(sequence)) && s == sequence
    {
      sequence := (sequence + 1) % 0x1_0000;
      s := sequence;
    }

    /** `_build_telegram`: draws a sequence number (even when packing then
        fails) and lays out the telegram. */
    method BuildTelegram(command: int, data: Bytes, attribute: int) returns (r: Result<Bytes>)
      modifies this`sequence
      ensures sequence == NextSequence(old(sequence))
      ensures r == Telegram(sequence, attribute, station, command, data)
    {
      var s := GetNextSequence();
      if !(IsByte(s) && IsByte(attribute) && IsByte(station) && IsByte(command)) {
        return Err(StructError);
      }
      if 13 + |data| >= 0x1_0000_0000 {
        return Err(StructError);
      }
      var prefix := TelegramPrefix(s, attribute, station, command, data);
      var crc := Crc16.CalculateCrc(prefix);
      r := Ok(prefix + U16Be(crc as int));
    }

    /** `_send_and_receive`: refuse when not connected; otherwise clear the
        queue, send, and validate the first datagram that arrives. */
    method SendAndReceive(telegram: Bytes, expectedSequence: int, arrivals: seq<Bytes>)
      returns (sent: Option<Bytes>, r: Result<Bytes>)
      modifies endpoint
      ensures endpoint == null ==> sent == None && r == Err(ProtocolError(NotConnected))
      ensures endpoint != null ==> sent == Some(telegram) && r == Received(arrivals, expectedSequence)
                                   && endpoint.items == Leftover(arrivals)
    {
      if endpoint == null {
        return None, Err(ProtocolError(NotConnected));
      }
      endpoint.ClearResponse();
      sent := Some(telegram);
      for i := 0 to |arrivals|
        invariant endpoint.items == arrivals[..i]
      {
        endpoint.DatagramReceived(arrivals[i]);
        assert arrivals[..i + 1] == arrivals[..i] + [arrivals[i]];
      }
      assert arrivals[..|arrivals|] == arrivals;
      var response := endpoint.GetResponse();
      match response
      case None => r := Err(TimeoutError);
      case Some(d) => r := ValidateResponse(d, expectedSequence);
    }

    /** Draw the expected sequence number, build the telegram (drawing
        another) and exchange it: the common middle of every operation. */
    method Transact(command: int, data: Bytes, arrivals: seq<Bytes>)
      returns (sent: Option<Bytes>, payload: Result<Bytes>)
      modifies this, endpoint
      ensures endpoint == old(endpoint)
      ensures sequence == Advance(old(sequence), 2)
      ensures (sent, payload) == Exchange(Telegram(SentSequence(old(sequence)), ATTR_REQUEST, station, command, data),
                                          endpoint != null, arrivals, ExpectedSequence(old(sequence)))
      ensures endpoint != null ==> endpoint.items == if sent.Some? then Leftover(arrivals) else old(endpoint.items)
    {
      var expected := GetNextSequence();
      var t := BuildTelegram(command, data, ATTR_REQUEST);
      if t.Err? {
        return None, Err(t.error);
      }
      sent, payload := SendAndReceive(t.value, expected, arrivals);
    }

    /** `read_registers` */
    method ReadRegisters(start: int, count: int, arrivals: seq<Bytes>)
      returns (sent: Option<Bytes>, r: Result<seq<Word32>>)
      modifies this, endpoint
      ensures endpoint == old(endpoint)
      ensures !RegisterRangeOk(start, count) ==>
                r == Err(ValueError) && sent == None && sequence == old(sequence)
                && (endpoint != null ==> endpoint.items == old(endpoint.items))
      ensures RegisterRangeOk(start, count) ==>
                sequence == Advance(old(sequence), 2)
                && (sent, r) == ReadRegistersOutcome(station, old(sequence), endpoint != null, start, count, arrivals)
                && (endpoint != null ==> endpoint.items == if sent.Some? then Leftover(arrivals) else old(endpoint.items))
    {
      if !RegisterRangeOk(start, count) {
        return None, Err(ValueError);
      }
      var payload;
      sent, payload := Transact(CMD_READ_REGISTER, U16Be(start) + [count], arrivals);
      if payload.Err? {
        return sent, Err(payload.error);
      }
      if |payload.value| != 4 * count {
        return sent, Err(ProtocolError(UnexpectedLength));
      }
      var registers := UnpackRegisters(payload.value, count);
      r := Ok(registers);
    }

    /** `write_register` */
    method WriteRegister(address: int, value: int, arrivals: seq<Bytes>)
      returns (sent: Option<Bytes>, r: Outcome)
      modifies this, endpoint
      ensures endpoint == old(endpoint)
      ensures !RegisterValueOk(address, value) ==>
                r == Fail(ValueError) && sent == None && sequence == old(sequence)
                && (endpoint != null ==> endpoint.items == old(endpoint.items))
      ensures RegisterValueOk(address, value) ==>
                sequence == Advance(old(sequence), 2)
                && var (s, p) := Exchange(Telegram(SentSequence(old(sequence)), ATTR_REQUEST, station,
                                                   CMD_WRITE_REGISTER, U16Be(address) + U32Be(value)),
                                          endpoint != null, arrivals, ExpectedSequence(old(sequence)));
                   sent == s && r == Acknowledged(p)
                   && (endpoint != null ==> endpoint.items == if s.Some? then Leftover(arrivals) else old(endpoint.items))
    {
      if !RegisterValueOk(address, value) {
        return None, Fail(ValueError);
      }
      var payload;
      sent, payload := Transact(CMD_WRITE_REGISTER, U16Be(address) + U32Be(value), arrivals);
      r := Acknowledged(payload);
    }

    /** `read_flags`: only negative addresses and counts below one are
        refused up front; values that do not fit the two 16-bit request
        fields raise struct.error before any sequence number is drawn. */
    method ReadFlags(start: int, count: int, arrivals: seq<Bytes>)
      returns (sent: Option<Bytes>, r: Result<seq<bool>>)
      modifies this, endpoint
      ensures endpoint == old(endpoint)
      ensures (start < 0 || count < 1) ==>
                r == Err(ValueError) && sent == None && sequence == old(sequence)
                && (endpoint != null ==> endpoint.items == old(endpoint.items))
      ensures (start >= 0 && count >= 1 && (start > 0xFFFF || count > 0xFFFF)) ==>
                r == Err(StructError) && sent == None && sequence == old(sequence)
                && (endpoint != null ==> endpoint.items == old(endpoint.items))
      ensures (0 <= start <= 0xFFFF && 1 <= count <= 0xFFFF) ==>
                sequence == Advance(old(sequence), 2)
                && var (s, p) := Exchange(Telegram(SentSequence(old(sequence)), ATTR_REQUEST, station,
                                                   CMD_READ_FLAG, U16Be(start) + U16Be(count)),
                                          endpoint != null, arrivals, ExpectedSequence(old(sequence)));
                   sent == s && r == FlagsOf(p, count)
                   && (endpoint != null ==> endpoint.items == if s.Some? then Leftover(arrivals) else old(endpoint.items))
    {
      if start < 0 || count < 1 {
        return None, Err(ValueError);
      }
      if start > 0xFFFF || count > 0xFFFF {
        return None, Err(StructError);
      }
      var payload;
      sent, payload := Transact(CMD_READ_FLAG, U16Be(start) + U16Be(count), arrivals);
      if payload.Err? {
        return sent, Err(payload.error);
      }
      var flags := UnpackFlags(payload.value, count);
      r := Ok(flags);
    }

    /** `write_flag`: the value travels as one byte, 1 or 0. */
    method WriteFlag(address: int, value: bool, arrivals: seq<Bytes>)
      returns (sent: Option<Bytes>, r: Outcome)
      modifies this, endpoint
      ensures endpoint == old(endpoint)
      ensures address < 0 ==>
                r == Fail(ValueError) && sent == None && sequence == old(sequence)
                && (endpoint != null ==> endpoint.items == old(endpoint.items))
      ensures address > 0xFFFF ==>
                r == Fail(StructError) && sent == None && sequence == old(sequence)
                && (endpoint != null ==> endpoint.items == old(endpoint.items))
      ensures 0 <= address <= 0xFFFF ==>
                sequence == Advance(old(sequence), 2)
                && var (s, p) := Exchange(Telegram(SentSequence(old(sequence)), ATTR_REQUEST, station,
                                                   CMD_WRITE_FLAG, U16Be(address) + [if value then 1 else 0]),
                                          endpoint != null, arrivals, ExpectedSequence(old(sequence)));
                   sent == s && r == Acknowledged(p)
                   && (endpoint != null ==> endpoint.items == if s.Some? then Leftover(arrivals) else old(endpoint.items))
    {
      if address < 0 {
        return None, Fail(ValueError);
      }
      if address > 0xFFFF {
        return None, Fail(StructError);
      }
      var payload;
      sent, payload := Transact(CMD_WRITE_FLAG, U16Be(address) + [if value then 1 else 0], arrivals);
      r := Acknowledged(payload);
    }

    /** `get_device_info`: four register reads in order (R600, R605-R608,
        R609, R611-R612), each with its own exchange and its own pair of
        sequence numbers. The product-type words are decoded as strict ASCII
        right after their read, before the hardware version is asked for.
        There is no handler, so the first failing read or decode ends the
        call with its own error, and only four good reads of an ASCII
        product type assemble the identification. `attempts` counts the
        reads attempted. */
    method GetDeviceInfo(a1: seq<Bytes>, a2: seq<Bytes>, a3: seq<Bytes>, a4: seq<Bytes>)
      returns (r: Result<DeviceInfo>, ghost attempts: nat)
      modifies this, endpoint
      ensures endpoint == old(endpoint)
      ensures 1 <= attempts <= 4 && sequence == Advance(old(sequence), 2 * attempts)
      ensures ReadRegistersOutcome(station, old(sequence), endpoint != null, SYSREG_FIRMWARE, 1, a1).1.Err? ==>
                attempts == 1 && r.Err? && r.error == ReadRegistersOutcome(station, old(sequence), endpoint != null, SYSREG_FIRMWARE, 1, a1).1.error
      ensures ReadRegistersOutcome(station, old(sequence), endpoint != null, SYSREG_FIRMWARE, 1, a1).1.Ok?
              && ReadRegistersOutcome(station, Advance(old(sequence), 2), endpoint != null, SYSREG_PRODUCT_TYPE_START, 4, a2).1.Err? ==>
                attempts == 2 && r.Err? && r.error == ReadRegistersOutcome(station, Advance(old(sequence), 2), endpoint != null, SYSREG_PRODUCT_TYPE_START, 4, a2).1.error
      ensures ReadRegistersOutcome(station, old(sequence), endpoint != null, SYSREG_FIRMWARE, 1, a1).1.Ok?
              && ReadRegistersOutcome(station, Advance(old(sequence), 2), endpoint != null, SYSREG_PRODUCT_TYPE_START, 4, a2).1.Ok?
              && Text.AsciiStrict(EncodeWords(ReadRegistersOutcome(station, Advance(old(sequence), 2), endpoint != null, SYSREG_PRODUCT_TYPE_START, 4, a2).1.value)).Err? ==>
                attempts == 2 && r.Err? && r.error == UnicodeError
      ensures ReadRegistersOutcome(station, old(sequence), endpoint != null, SYSREG_FIRMWARE, 1, a1).1.Ok?
              && ReadRegistersOutcome(station, Advance(old(sequence), 2), endpoint != null, SYSREG_PRODUCT_TYPE_START, 4, a2).1.Ok?
              && Text.AsciiStrict(EncodeWords(ReadRegistersOutcome(station, Advance(old(sequence), 2), endpoint != null, SYSREG_PRODUCT_TYPE_START, 4, a2).1.value)).Ok?
              && ReadRegistersOutcome(station, Advance(old(sequence), 4), endpoint != null, SYSREG_HW_VERSION, 1, a3).1.Err? ==>
                attempts == 3 && r.Err? && r.error == ReadRegistersOutcome(station, Advance(old(sequence), 4), endpoint != null, SYSREG_HW_VERSION, 1, a3).1.error
      ensures ReadRegistersOutcome(station, old(sequence), endpoint != null, SYSREG_FIRMWARE, 1, a1).1.Ok?
              && ReadRegistersOutcome(station, Advance(old(sequence), 2), endpoint != null, SYSREG_PRODUCT_TYPE_START, 4, a2).1.Ok?
              && Text.AsciiStrict(EncodeWords(ReadRegistersOutcome(station, Advance(old(sequence), 2), endpoint != null, SYSREG_PRODUCT_TYPE_START, 4, a2).1.value)).Ok?
              && ReadRegistersOutcome(station, Advance(old(sequence), 4), endpoint != null, SYSREG_HW_VERSION, 1, a3).1.Ok?
              && ReadRegistersOutcome(station, Advance(old(sequence), 6), endpoint != null, SYSREG_SERIAL_START, 2, a4).1.Err? ==>
                attempts == 4 && r.Err? && r.error == ReadRegistersOutcome(station, Advance(old(sequence), 6), endpoint != null, SYSREG_SERIAL_START, 2, a4).1.error
      ensures ReadRegistersOutcome(station, old(sequence), endpoint != null, SYSREG_FIRMWARE, 1, a1).1.Ok?
              && ReadRegistersOutcome(station, Advance(old(sequence), 2), endpoint != null, SYSREG_PRODUCT_TYPE_START, 4, a2).1.Ok?
              && Text.AsciiStrict(EncodeWords(ReadRegistersOutcome(station, Advance(old(sequence), 2), endpoint != null, SYSREG_PRODUCT_TYPE_START, 4, a2).1.value)).Ok?
              && ReadRegistersOutcome(station, Advance(old(sequence), 4), endpoint != null, SYSREG_HW_VERSION, 1, a3).1.Ok?
              && ReadRegistersOutcome(station, Advance(old(sequence), 6), endpoint != null, SYSREG_SERIAL_START, 2, a4).1.Ok? ==>
                attempts == 4 && r.Ok?
                && r == DeviceInfoOf(ReadRegistersOutcome(station, old(sequence), endpoint != null, SYSREG_FIRMWARE, 1, a1).1.value[0],
                                     ReadRegistersOutcome(station, Advance(old(sequence), 2), endpoint != null, SYSREG_PRODUCT_TYPE_START, 4, a2).1.value,
                                     ReadRegistersOutcome(station, Advance(old(sequence), 4), endpoint != null, SYSREG_HW_VERSION, 1, a3).1.value[0],
                                     ReadRegistersOutcome(station, Advance(old(sequence), 6), endpoint != null, SYSREG_SERIAL_START, 2, a4).1.value)
    {
      ghost var before := sequence;
      attempts := 1;
      var _, rfw := ReadRegisters(SYSREG_FIRMWARE, 1, a1);
      if rfw.Err? {
        return Err(rfw.error), attempts;
      }
      attempts := 2;
      var _, rproduct := ReadRegisters(SYSREG_PRODUCT_TYPE_START, SYSREG_PRODUCT_TYPE_END - SYSREG_PRODUCT_TYPE_START + 1, a2);
      AdvanceSteps(before, 2, 2);
      if rproduct.Err? {
        return Err(rproduct.error), attempts;
      }
      var productType := Text.AsciiStrict(EncodeWords(rproduct.value));
      if productType.Err? {
        return Err(productType.error), attempts;
      }
      attempts := 3;
      var _, rhw := ReadRegisters(SYSREG_HW_VERSION, 1, a3);
      AdvanceSteps(before, 4, 2);
      if rhw.Err? {
        return Err(rhw.error), attempts;
      }
      attempts := 4;
      var _, rserial := ReadRegisters(SYSREG_SERIAL_START, SYSREG_SERIAL_END - SYSREG_SERIAL_START + 1, a4);
      AdvanceSteps(before, 6, 2);
      if rserial.Err? {
        return Err(rserial.error), attempts;
      }
      r := Ok(DeviceInfo(rfw.value[0], Text.StripNul(productType.value), rhw.value[0],
                         Text.Hex8(rserial.value[0]) + Text.Hex8(rserial.value[1])));
    }
  }

  // ---------------------------------------------------------------------
  // The sequence numbers of one operation

  /** As written, an operation expects a reply carrying the sequence number
      drawn before the telegram's own: a device that echoes the telegram's
      sequence number is always rejected with a sequence mismatch. */
  lemma EchoedSequenceRejected(before: Word16, attribute: int, station: int, command: int, data: Bytes)
    requires attribute == ATTR_RESPONSE || attribute == ATTR_ACK
    requires Telegram(SentSequence(before), attribute, station, command, data).Ok?
    ensures ValidateResponse(Telegram(SentSequence(before), attribute, station, command, data).value,
                             ExpectedSequence(before))
            == Err(ProtocolError(SequenceMismatch))
  {
    TelegramLayout(SentSequence(before), attribute, station, command, data);
  }

  /** Expecting the sequence number the telegram actually carries accepts
      the echoing device's reply and yields its payload. */
  lemma EchoedSequenceAcceptedWhenMatched(before: Word16, attribute: int, station: int, command: int, data: Bytes)
    requires attribute == ATTR_RESPONSE || attribute == ATTR_ACK
    requires Telegram(SentSequence(before), attribute, station, command, data).Ok?
    ensures ValidateResponse(Telegram(SentSequence(before), attribute, station, command, data).value,
                             SentSequence(before))
            == Ok(data)
  {
    TelegramRoundTrip(SentSequence(before), attribute, station, command, data);
  }

  /** As written, the 16-bit counter is packed into a one-byte field: once
      it reaches 256 every telegram fails with struct.error. From a fresh
      engine the 128th operation is the first to fail. */
  lemma SequenceFieldOverflows(before: Word16, attribute: int, station: int, command: int, data: Bytes)
    ensures SentSequence(before) >= 0x100 ==>
              Telegram(SentSequence(before), attribute, station, command, data) == Err(StructError)
    ensures SentSequence(Advance(0, 2 * 127)) == 0x100
    ensures forall k: nat :: k < 127 ==> SentSequence(Advance(0, 2 * k)) < 0x100
  {
  }

  /** Packing the counter modulo 256 keeps every operation buildable for
      any byte-sized attribute, station and command. */
  lemma WrappedSequenceAlwaysFits(before: Word16, attribute: int, station: int, command: int, data: Bytes)
    requires IsByte(attribute) && IsByte(station) && IsByte(command) && 13 + |data| < 0x1_0000_0000
    ensures Telegram(SentSequence(before) % 0x100, attribute, station, command, data).Ok?
  {
  }
}
