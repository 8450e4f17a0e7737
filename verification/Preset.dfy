/** The preset object between goroutine switches: admission of operations,
    raw frames and closing. Their interleaving is the Lifecycle module. */
module Preset {
  import opened LinTypes

  datatype PresetError = PresetClosed | InvalidFrameId | PayloadTooLong | CloseFailed(code: int)

  /** A call of the hardware driver, or the closing of the UDS client above it. */
  datatype Call = Write(ev: LinEvent) | CloseClient | CloseDevice

  /** What the preset drives, and its calls in order. The hardware need not
      have a Close; `result` is what it returns if it has. */
  class Device {
    const closable: bool
    const result: Option<int>
    var calls: seq<Call>

    constructor (closable: bool, result: Option<int>)
      ensures this.closable == closable && this.result == result && calls == []
    {
      this.closable, this.result := closable, result;
      calls := [];
    }

    /** The calls of the first Close: the client goes before the device. */
    function Closing(): seq<Call> { if closable then [CloseClient, CloseDevice] else [CloseClient] }

    function CloseResult(): Option<PresetError> {
      if closable && result.Some? then Some(CloseFailed(result.value)) else None
    }
  }

  /** Neither part has been closed by these calls. */
  predicate StillOpen(calls: seq<Call>) { CloseClient !in calls && CloseDevice !in calls }

  class Preset {
    const channel: byte
    const device: Device
    var closed: bool
    var closeDone: bool
    var closeErr: Option<PresetError>

    /** Close has run to its end or not at all; its calls were made once and
        are the last ones. */
    ghost predicate Valid()
      reads this, device
    {
      && closed == closeDone
      && (!closeDone ==> closeErr.None? && StillOpen(device.calls))
      && (closeDone ==>
            && |device.calls| >= |device.Closing()|
            && var n := |device.calls| - |device.Closing()|;
            && device.calls[n..] == device.Closing() && StillOpen(device.calls[..n])
            && closeErr == device.CloseResult())
    }

    constructor (device: Device, channel: byte)
      requires StillOpen(device.calls)
      ensures Valid() && this.device == device && this.channel == channel && !closed
    {
      this.device := device;
      this.channel := channel;
      closed, closeDone, closeErr := false, false, None;
    }

    /** One raw master frame, bounds checked, on the preset's channel. */
    method Write(id: byte, data: seq<byte>) returns (r: Result<(), PresetError>)
      requires Valid()
      modifies device
      ensures Valid()
      ensures r.Err? ==> device.calls == old(device.calls)
      ensures r.Ok? ==>
        var e := LinEvent(channel, id, data, if id == 0x3C || id == 0x3D then Classic else Enhanced, TX);
        device.calls == old(device.calls) + [Call.Write(e)]
      ensures r == if closed then Err(PresetClosed)
                   else if id > 0x3F then Err(InvalidFrameId)
                   else if |data| > 8 then Err(PayloadTooLong)
                   else Ok(())
    {
      if closed { return Err(PresetClosed); }
      if id > 0x3F { return Err(InvalidFrameId); }
      if |data| > 8 { return Err(PayloadTooLong); }
      var checksum := Enhanced;
      if id == MASTER_DIAGNOSTIC_ID || id == SLAVE_DIAGNOSTIC_ID { checksum := Classic; }
      device.calls := device.calls + [Call.Write(LinEvent(channel, id, data, checksum, TX))];
      return Ok(());
    }

    /** Closes the client and then the device on the first call; every call
        returns the first one's result. */
    method Close() returns (r: Option<PresetError>)
      requires Valid()
      modifies this`closed, this`closeDone, this`closeErr, device
      ensures Valid() && closed
      ensures old(closed) ==> device.calls == old(device.calls)
      ensures !old(closed) ==>
        device.calls == old(device.calls) + [CloseClient] + if device.closable then [CloseDevice] else []
      ensures r == if device.closable && device.result.Some? then Some(CloseFailed(device.result.value)) else None
    {
      if !closeDone {
        closed := true;
        device.calls := device.calls + [CloseClient];
        if device.closable {
          device.calls := device.calls + [CloseDevice];
          if device.result.Some? { closeErr := Some(CloseFailed(device.result.value)); }
        }
        closeDone := true;
        assert device.calls == old(device.calls) + device.Closing();
      }
      return closeErr;
    }
  }
}
