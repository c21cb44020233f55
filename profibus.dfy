/** The Profi-S-Bus transport (custom_components/sbus/profi_sbus.py): the
    gateway framing around a telegram and the connection guard of its
    exchange. The stream itself is abstracted: a connection attempt either
    opens or fails, and a read returns what the gateway has sent (at most
    1024 bytes of it) or nothing before the deadline. */
module Profibus {
  import opened Bytes
  import opened SBusErrors
  import GenericSBus

  /** The size of the single read the exchange makes. */
  const READ_SIZE: nat := 1024

  /** `_wrap_profibus`: a two-byte header (gateway node address, telegram
      length) in front of the telegram; `bytes([...])` raises ValueError
      when either does not fit a byte. */
  function Wrap(address: int, telegram: Bytes): (r: Result<Bytes>)
    ensures r.Ok? <==> 0 <= address < 0x100 && |telegram| < 0x100
    ensures r.Err? ==> r.error == ValueError
    ensures r.Ok? ==> |r.value| == |telegram| + 2 && r.value[2..] == telegram
                      && r.value[0] == address && r.value[1] == |telegram|
  {
    if 0 <= address < 0x100 && |telegram| < 0x100 then Ok([address, |telegram|] + telegram)
    else Err(ValueError)
  }

  /** `_unwrap_profibus`: drop the two header bytes when there is anything
      after them; two bytes or fewer are passed through unchanged. */
  function Unwrap(data: Bytes): (r: Bytes)
    ensures |data| > 2 ==> data == data[..2] + r
    ensures |data| <= 2 ==> r == data
  {
    if |data| > 2 then data[2..] else data
  }

  /** `reader.read(1024)`: at most that many of the available bytes. */
  function ReadAtMost(available: Bytes): (r: Bytes)
    ensures |r| <= READ_SIZE && |r| <= |available| && r == available[..|r|]
    ensures |available| <= READ_SIZE ==> r == available
  {
    if |available| <= READ_SIZE then available else available[..READ_SIZE]
  }

  /** Unwrapping a wrapped non-empty telegram gives it back. */
  lemma UnwrapWrap(address: int, telegram: Bytes)
    requires Wrap(address, telegram).Ok?
    requires telegram != []
    ensures Unwrap(Wrap(address, telegram).value) == telegram
  {
  }

  /** An empty telegram does not survive the round trip: its two-byte
      header alone comes back unchanged. */
  lemma UnwrapWrapEmpty(address: int)
    requires 0 <= address < 0x100
    ensures Unwrap(Wrap(address, []).value) == [address, 0]
  {
  }

  /** A gateway reply that carries a checked S-Bus response behind any two
      header bytes, in one read, hands the generic engine exactly that
      response. */
  lemma GatewayReplyDelivered(header: Bytes, response: Bytes)
    requires |header| == 2 && |response| + 2 <= READ_SIZE
    requires GenericSBus.ValidateTelegram(response) == Pass
    ensures GenericSBus.Checked(Ok(Unwrap(ReadAtMost(header + response)))) == Ok(response)
  {
    assert (header + response)[2..] == response;
  }

  /** `ProfiSBusProtocol`'s connection state: whether the stream reader and
      writer are held. */
  class ProfibusLink {
    const profibusAddress: int
    var hasReader: bool
    var hasWriter: bool

    constructor (profibusAddress: int)
      ensures this.profibusAddress == profibusAddress && !hasReader && !hasWriter
    {
      this.profibusAddress := profibusAddress;
      hasReader := false;
      hasWriter := false;
    }

    /** `connect`: open the gateway stream; a failure propagates and
        nothing changes. */
    method Connect(reachable: bool) returns (r: Outcome)
      modifies this
      ensures reachable ==> r == Pass && hasReader && hasWriter
      ensures !reachable ==> r == Fail(ConnectionError) && hasReader == old(hasReader) && hasWriter == old(hasWriter)
    {
      if reachable {
        hasReader, hasWriter := true, true;
        r := Pass;
      } else {
        r := Fail(ConnectionError);
      }
    }

    /** `disconnect`: only a held writer is closed, and then both are
        dropped; without a writer nothing changes. */
    method Disconnect()
      modifies this
      ensures old(hasWriter) ==> !hasReader && !hasWriter
      ensures !old(hasWriter) ==> hasReader == old(hasReader) && !hasWriter
    {
      if hasWriter {
        hasWriter := false;
        hasReader := false;
      }
    }

    /** `_send_and_receive`: without both halves of the stream it raises the
        timeout error and writes nothing; a telegram too long for the
        length byte raises ValueError before anything is written;
        otherwise the wrapped telegram is written and one read's worth of
        the gateway's reply is unwrapped. `reply` is None when nothing
        arrives before the deadline. */
    method SendAndReceive(telegram: Bytes, reply: Option<Bytes>) returns (sent: Option<Bytes>, r: Result<Bytes>)
      ensures !(hasReader && hasWriter) ==> sent == None && r == Err(TimeoutError)
      ensures hasReader && hasWriter && Wrap(profibusAddress, telegram).Err? ==>
                sent == None && r == Err(ValueError)
      ensures hasReader && hasWriter && Wrap(profibusAddress, telegram).Ok? ==>
                sent == Some(Wrap(profibusAddress, telegram).value)
                && (reply.None? ==> r == Err(TimeoutError))
                && (reply.Some? ==> r == Ok(Unwrap(ReadAtMost(reply.value))))
    {
      if !hasReader || !hasWriter {
        return None, Err(TimeoutError);
      }
      var wrapped := Wrap(profibusAddress, telegram);
      if wrapped.Err? {
        return None, Err(wrapped.error);
      }
      sent := Some(wrapped.value);
      match reply
      case None => r := Err(TimeoutError);
      case Some(available) => r := Ok(Unwrap(ReadAtMost(available)));
    }
  }
}
