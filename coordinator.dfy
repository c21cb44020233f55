/** The polling coordinator (custom_components/sbus/coordinator.py): the
    connection-health state machine over `_is_connected` and
    `_consecutive_errors`, the cached device information, and the data
    dictionary each poll fills. The protocol behind it is abstract: each
    call it makes is an outcome given to the tick. */
module Coordinator {
  import opened Bytes
  import opened SBusErrors

  /** After this many consecutive failed polls the next one reconnects. */
  const MAX_CONSECUTIVE_ERRORS: nat := 3

  /** One protocol call as the coordinator's handlers see it: values, a
      timeout (SBusTimeoutError), another S-Bus protocol error
      (SBusProtocolError, including CRC errors), or any other exception,
      which no handler of the poll catches. */
  datatype Call<T> = Done(value: T) | Timeout | ProtocolFailure | Crash

  /** The data dictionary: four buckets keyed by index. */
  datatype Data = Data(registers: map<int, Word32>, flags: map<int, bool>,
                       timers: map<int, int>, counters: map<int, int>)

  /** How a poll ends: with data, with UpdateFailed, or with an exception
      the poll does not handle. */
  datatype TickResult = Updated(data: Data) | UpdateFailed | Raised

  /** `_is_connected` and `_consecutive_errors`. */
  datatype Health = Health(isConnected: bool, consecutiveErrors: nat)

  /** The condition under which a poll starts by reconnecting. */
  predicate NeedsReconnect(h: Health)
  {
    !h.isConnected || h.consecutiveErrors >= MAX_CONSECUTIVE_ERRORS
  }

  /** Index `i` of a read result mapped to its value. */
  function IndexMap<T>(s: seq<T>): map<int, T>
  {
    map i | 0 <= i < |s| :: s[i]
  }

  /** The bucket a read fills: its values by index, or nothing when the read
      failed with a protocol error. */
  function Bucket<T>(c: Call<seq<T>>): map<int, T>
  {
    if c.Done? then IndexMap(c.value) else map[]
  }

  /** Everything one poll decides. */
  datatype TickOutcome = TickOutcome(health: Health, attempted: bool, flagsRead: bool, result: TickResult)

  /** `_async_update_data` as a function of the health before it and the
      outcomes of the reconnect (disconnect and connect together), the
      register read and the flag read. */
  function TickSpec(h: Health, reconnect: Outcome, registers: Call<seq<Word32>>, flags: Call<seq<bool>>): TickOutcome
  {
    var attempted := NeedsReconnect(h);
    if attempted && reconnect.Fail? then TickOutcome(Health(false, h.consecutiveErrors), true, false, UpdateFailed)
    else
      var errors := if attempted then 0 else h.consecutiveErrors;
      if registers.Timeout? then TickOutcome(Health(true, errors + 1), attempted, false, UpdateFailed)
      else if registers.Crash? then TickOutcome(Health(true, errors), attempted, false, Raised)
      else if flags.Timeout? then TickOutcome(Health(true, errors + 1), attempted, true, UpdateFailed)
      else if flags.Crash? then TickOutcome(Health(true, errors), attempted, true, Raised)
      else TickOutcome(Health(true, 0), attempted, true, Updated(Data(Bucket(registers), Bucket(flags), map[], map[])))
  }

  // ---------------------------------------------------------------------
  // What a poll guarantees

  /** The error count never passes the reconnect threshold: a poll that
      starts at the threshold reconnects (and so starts again from zero)
      or fails to reconnect (and leaves the count alone). */
  lemma ErrorsStayBounded(h: Health, reconnect: Outcome, registers: Call<seq<Word32>>, flags: Call<seq<bool>>)
    requires h.consecutiveErrors <= MAX_CONSECUTIVE_ERRORS
    ensures TickSpec(h, reconnect, registers, flags).health.consecutiveErrors <= MAX_CONSECUTIVE_ERRORS
  {
  }

  /** A failed reconnect fails the poll, marks the link down and leaves the
      error count unchanged (UpdateFailed is not one of the S-Bus errors the
      poll counts); the next poll tries again. */
  lemma FailedReconnect(h: Health, e: Error, registers: Call<seq<Word32>>, flags: Call<seq<bool>>)
    requires NeedsReconnect(h)
    ensures var o := TickSpec(h, Fail(e), registers, flags);
      o.result == UpdateFailed && !o.health.isConnected
      && o.health.consecutiveErrors == h.consecutiveErrors && !o.flagsRead
      && NeedsReconnect(o.health)
  {
  }

  /** A timeout in either read fails the poll and counts exactly one error
      on top of the count the poll started from (zero after a reconnect);
      after a register timeout the flags are not read. */
  lemma TimeoutCountsOnce(h: Health, reconnect: Outcome, registers: Call<seq<Word32>>, flags: Call<seq<bool>>)
    requires !(NeedsReconnect(h) && reconnect.Fail?)
    requires registers.Timeout? || (!registers.Crash? && flags.Timeout?)
    ensures var o := TickSpec(h, reconnect, registers, flags);
      o.result == UpdateFailed && o.health.isConnected
      && o.health.consecutiveErrors == (if NeedsReconnect(h) then 0 else h.consecutiveErrors) + 1
      && (registers.Timeout? ==> !o.flagsRead)
  {
  }

  /** A protocol error in one read only empties that read's bucket: the other
      read still runs and the poll succeeds with all four buckets. */
  lemma ProtocolErrorEmptiesOneBucket(h: Health, reconnect: Outcome, registers: Call<seq<Word32>>, flags: Call<seq<bool>>)
    requires !(NeedsReconnect(h) && reconnect.Fail?)
    requires registers.Done? || registers.ProtocolFailure?
    requires flags.Done? || flags.ProtocolFailure?
    ensures var o := TickSpec(h, reconnect, registers, flags);
      o.flagsRead && o.health == Health(true, 0)
      && o.result.Updated?
      && (registers.ProtocolFailure? ==> o.result.data.registers == map[])
      && (flags.ProtocolFailure? ==> o.result.data.flags == map[])
      && (registers.Done? ==> (forall i :: i in o.result.data.registers <==> 0 <= i < |registers.value|))
      && (flags.Done? ==> (forall i :: i in o.result.data.flags <==> 0 <= i < |flags.value|))
      && o.result.data.timers == map[] && o.result.data.counters == map[]
  {
  }

  /** Polls that only ever succeed or time out, from a fresh coordinator. */
  function TimeoutPolls(n: nat): Health
  {
    if n == 0 then Health(false, 0)
    else TickSpec(TimeoutPolls(n - 1), Pass, Timeout, Timeout).health
  }

  /** The first poll of a fresh coordinator reconnects; three consecutive
      timed-out polls after it leave the count at the threshold, so the
      fourth poll reconnects again, and not earlier. */
  lemma {:induction false} ThreeTimeoutsForceReconnect(n: nat)
    requires n <= 3
    ensures NeedsReconnect(TimeoutPolls(0))
    ensures 1 <= n ==> TimeoutPolls(n) == Health(true, n)
    ensures 1 <= n < 3 ==> !NeedsReconnect(TimeoutPolls(n))
    ensures n == 3 ==> NeedsReconnect(TimeoutPolls(n))
  {
    if n > 1 {
      ThreeTimeoutsForceReconnect(n - 1);
    }
  }

  // ---------------------------------------------------------------------
  // The coordinator

  /** Fill a bucket with a read's values by index, as the poll's `for`
      loops do. */
  method FillBucket<T>(values: seq<T>) returns (bucket: map<int, T>)
    ensures forall i :: i in bucket <==> 0 <= i < |values|
    ensures forall i :: 0 <= i < |values| ==> bucket[i] == values[i]
  {
    bucket := map[];
    for i := 0 to |values|
      invariant forall j :: j in bucket <==> 0 <= j < i
      invariant forall j :: 0 <= j < i ==> bucket[j] == values[j]
    {
      bucket := bucket[i := values[i]];
    }
  }

  /** `SBusDataUpdateCoordinator`, with the device information of type `D`. */
  class SBusDataUpdateCoordinator<D> {
    var isConnected: bool
    var consecutiveErrors: nat
    var deviceInfo: Option<D>

    constructor ()
      ensures !isConnected && consecutiveErrors == 0 && deviceInfo == None
    {
      isConnected := false;
      consecutiveErrors := 0;
      deviceInfo := None;
    }

    /** `_async_update_data` with `_async_reconnect` inlined. */
    method Tick(reconnect: Outcome, registers: Call<seq<Word32>>, flags: Call<seq<bool>>)
      returns (attempted: bool, flagsRead: bool, result: TickResult)
      modifies this
      ensures var o := TickSpec(Health(old(isConnected), old(consecutiveErrors)), reconnect, registers, flags);
        Health(isConnected, consecutiveErrors) == o.health
        && attempted == o.attempted && flagsRead == o.flagsRead && result == o.result
      ensures deviceInfo == if attempted && reconnect.Pass? then None else old(deviceInfo)
    {
      attempted := !isConnected || consecutiveErrors >= MAX_CONSECUTIVE_ERRORS;
      flagsRead := false;
      if attempted {
        if reconnect.Fail? {
          isConnected := false;
          return attempted, flagsRead, UpdateFailed;
        }
        deviceInfo := None;
        consecutiveErrors := 0;
        isConnected := true;
      }
      var registerBucket: map<int, Word32> := map[];
      match registers {
        case Timeout =>
          consecutiveErrors := consecutiveErrors + 1;
          return attempted, flagsRead, UpdateFailed;
        case Crash =>
          return attempted, flagsRead, Raised;
        case ProtocolFailure =>
        case Done(values) =>
          registerBucket := FillBucket(values);
      }
      flagsRead := true;
      var flagBucket: map<int, bool> := map[];
      match flags {
        case Timeout =>
          consecutiveErrors := consecutiveErrors + 1;
          return attempted, flagsRead, UpdateFailed;
        case Crash =>
          return attempted, flagsRead, Raised;
        case ProtocolFailure =>
        case Done(values) =>
          flagBucket := FillBucket(values);
      }
      consecutiveErrors := 0;
      isConnected := true;
      result := Updated(Data(registerBucket, flagBucket, map[], map[]));
    }

    /** `async_get_device_info`: ask the protocol only while nothing is
        cached; a failure propagates and leaves the cache empty. `asked`
        says whether the protocol was called. */
    method GetDeviceInfo(fetched: Result<D>) returns (asked: bool, r: Result<D>)
      modifies this
      ensures asked == old(deviceInfo).None?
      ensures old(deviceInfo).Some? ==> r == Ok(old(deviceInfo).value) && deviceInfo == old(deviceInfo)
      ensures old(deviceInfo).None? ==> r == fetched
                                        && deviceInfo == if fetched.Ok? then Some(fetched.value) else None
      ensures isConnected == old(isConnected) && consecutiveErrors == old(consecutiveErrors)
    {
      asked := deviceInfo.None?;
      if asked {
        if fetched.Err? {
          return asked, Err(fetched.error);
        }
        deviceInfo := Some(fetched.value);
      }
      r := Ok(deviceInfo.value);
    }

    /** `async_shutdown`: disconnect, log any failure, and mark the link
        down either way. `disconnect` is what `protocol.disconnect()` did;
        a failure is only logged and swallowed, so it changes nothing. */
    method Shutdown(disconnect: Outcome)
      modifies this
      ensures !isConnected
      ensures consecutiveErrors == old(consecutiveErrors) && deviceInfo == old(deviceInfo)
    {
      isConnected := false;
    }
  }
}
