/** Segmentation of a diagnostic message into 8-byte frames (buildFrames). */
module Framing {
  import opened LinTypes

  datatype TransportError = TransportClosed | TxQueueFull | RxQueueFull | MessageTooLong

  /** The messages the transport accepts: 12-bit length including the SID. */
  type Sendable = m: LinMessage | |m.data| <= MAX_DATA witness LinMessage(0, 0, [])

  function Pad8(s: seq<byte>): (r: seq<byte>)
    requires |s| <= 8
    ensures |r| == 8
  {
    s + seq(8 - |s|, _ => 0xFF)
  }

  function SingleFrame(m: LinMessage): seq<byte>
    requires |m.data| <= 5
  {
    Pad8([m.nad, |m.data| + 1, m.sid] + m.data)
  }

  function FirstFrame(m: LinMessage): (r: seq<byte>)
    requires 6 <= |m.data| <= MAX_DATA
    ensures |r| == 8
  {
    [m.nad, 0x10 + (|m.data| + 1) / 256, (|m.data| + 1) % 256, m.sid] + m.data[..4]
  }

  /** Consecutive frames for `rest`, the first of them numbered `k`. */
  function ConsecutiveFrames(nad: byte, rest: seq<byte>, k: nat): (r: seq<seq<byte>>)
    ensures |r| == (|rest| + 5) / 6
  {
    if rest == [] then []
    else
      var n := Min(|rest|, 6);
      [Pad8([nad, 0x20 + k % 16] + rest[..n])] + ConsecutiveFrames(nad, rest[n..], k + 1)
  }

  /** The payloads that carry `m`, in bus order. */
  function Payloads(m: Sendable): (r: seq<seq<byte>>)
    ensures |r| >= 1
  {
    if |m.data| <= 5 then [SingleFrame(m)]
    else [FirstFrame(m)] + ConsecutiveFrames(m.nad, m.data[4..], 1)
  }

  function DiagnosticId(isSlave: bool): byte {
    if isSlave then SLAVE_DIAGNOSTIC_ID else MASTER_DIAGNOSTIC_ID
  }

  function Frame(isSlave: bool, channel: byte, payload: seq<byte>): LinEvent {
    LinEvent(channel, DiagnosticId(isSlave), payload, Classic, RX)
  }

  function Frames(isSlave: bool, channel: byte, ps: seq<seq<byte>>): (r: seq<LinEvent>)
    ensures |r| == |ps|
  {
    if ps == [] then [] else [Frame(isSlave, channel, ps[0])] + Frames(isSlave, channel, ps[1..])
  }

  /** The frames of a message of `n` data bytes. */
  function FrameTotal(n: nat): nat { if n <= 5 then 1 else 1 + (n + 1) / 6 }

  /** Number of frames of a message of `n` data bytes, and its two bounds: the
      capacity hint of the source and the default queue. */
  lemma FrameCount(m: Sendable)
    ensures |Payloads(m)| == FrameTotal(|m.data|)
    ensures |Payloads(m)| <= 1 + (|m.data| + 1) / 6
    ensures |Payloads(m)| <= DEFAULT_TX_QUEUE
    ensures |m.data| == MAX_DATA ==> |Payloads(m)| == DEFAULT_TX_QUEUE
  {
    if |m.data| > 5 {
      assert |ConsecutiveFrames(m.nad, m.data[4..], 1)| == (|m.data| - 4 + 5) / 6;
    }
  }

  /** What every single frame carries, read without the recursion: after the
      first frame, frame `k` is NAD, 0x20 + k mod 16 and data bytes
      4 + 6(k-1) .. , padded with 0xFF. */
  lemma {:induction false} ConsecutiveFrameContents(nad: byte, rest: seq<byte>, first: nat, i: nat)
    requires i < (|rest| + 5) / 6
    ensures var f := ConsecutiveFrames(nad, rest, first)[i];
      && |f| == 8 && f[0] == nad && f[1] == 0x20 + (first + i) % 16
      && forall j :: 2 <= j < 8 ==> f[j] == if 6 * i + j - 2 < |rest| then rest[6 * i + j - 2] else 0xFF
  {
    var n := Min(|rest|, 6);
    if i == 0 {
      var s := [nad, 0x20 + first % 16] + rest[..n];
      var f := Pad8(s);
      assert f == ConsecutiveFrames(nad, rest, first)[0];
      assert forall j :: 2 <= j < |s| ==> f[j] == f[..|s|][j] == s[j] == rest[j - 2];
      assert f[0] == f[..|s|][0] && f[1] == f[..|s|][1];
    } else {
      ConsecutiveFrameContents(nad, rest[n..], first + 1, i - 1);
      assert ConsecutiveFrames(nad, rest, first)[i] == ConsecutiveFrames(nad, rest[n..], first + 1)[i - 1];
    }
  }

  /** Every frame is 8 bytes long. */
  lemma PayloadSize(m: Sendable)
    ensures forall i :: 0 <= i < |Payloads(m)| ==> |Payloads(m)[i]| == 8
  {
    forall i | 0 <= i < |Payloads(m)| ensures |Payloads(m)[i]| == 8 {
      if i > 0 { ConsecutiveFrameContents(m.nad, m.data[4..], 1, i - 1); }
    }
  }

  /** A single frame, byte by byte. */
  lemma SingleFrameContents(m: Sendable)
    requires |m.data| <= 5
    ensures |Payloads(m)| == 1
    ensures var p := Payloads(m)[0];
      && |p| == 8 && p[0] == m.nad && p[1] as int == |m.data| + 1 && p[2] == m.sid
      && forall j :: 3 <= j < 8 ==> p[j] == if j - 3 < |m.data| then m.data[j - 3] else 0xFF
  {
    var s := [m.nad, |m.data| + 1, m.sid] + m.data;
    var p := Pad8(s);
    assert forall j :: 0 <= j < |s| ==> p[j] == s[j];
  }

  /** A first frame, byte by byte: PCI type 1, the 12-bit length, and the first
      four data bytes. */
  lemma FirstFrameContents(m: Sendable)
    requires |m.data| > 5
    ensures var p := Payloads(m)[0];
      && |p| == 8 && p[0] == m.nad && p[3] == m.sid
      && 0x100 * p[1] as int + p[2] as int == 0x1000 + |m.data| + 1
      && forall j :: 4 <= j < 8 ==> p[j] == m.data[j - 4]
  {
    assert Payloads(m)[0] == FirstFrame(m);
    assert forall j :: 4 <= j < 8 ==> FirstFrame(m)[j] == m.data[..4][j - 4];
  }

  lemma {:induction false} FramesAt(isSlave: bool, channel: byte, ps: seq<seq<byte>>, i: nat)
    requires i < |ps|
    ensures Frames(isSlave, channel, ps)[i] == Frame(isSlave, channel, ps[i])
  {
    if i > 0 { FramesAt(isSlave, channel, ps[1..], i - 1); }
  }

  /** What an event carries besides its payload: the classic checksum, 0x3C for
      a master and 0x3D for a slave, and the transport's channel. */
  predicate DiagnosticEvent(isSlave: bool, channel: byte, e: LinEvent) {
    && e.checksum == Classic && e.id == (if isSlave then 0x3D else 0x3C) && e.channel == channel
    && e.direction == RX && |e.payload| == 8
  }

  /** Every frame of every message, in either role. */
  lemma FrameFields(isSlave: bool, channel: byte, m: Sendable, i: nat)
    requires i < |Payloads(m)|
    ensures var e := Frames(isSlave, channel, Payloads(m))[i];
      DiagnosticEvent(isSlave, channel, e) && e.payload == Payloads(m)[i]
  {
    PayloadSize(m);
    FramesAt(isSlave, channel, Payloads(m), i);
  }

  lemma {:induction false} FramesConcat(isSlave: bool, channel: byte, a: seq<seq<byte>>, b: seq<seq<byte>>)
    ensures Frames(isSlave, channel, a + b) == Frames(isSlave, channel, a) + Frames(isSlave, channel, b)
  {
    if a == [] {
      assert a + b == b;
    } else {
      assert (a + b)[1..] == a[1..] + b;
      FramesConcat(isSlave, channel, a[1..], b);
    }
  }

  /** Fills one frame the way the source does: an 0xFF buffer, then a header
      and a slice copied over it. */
  method FillPayload(header: seq<byte>, chunk: seq<byte>) returns (p: seq<byte>)
    requires |header| + |chunk| <= 8
    ensures p == Pad8(header + chunk)
  {
    var payload := new byte[8](_ => 0xFF);
    var i := 0;
    while i < |header|
      invariant 0 <= i <= |header|
      invariant payload[..i] == header[..i]
      invariant forall j :: i <= j < 8 ==> payload[j] == 0xFF
    {
      payload[i] := header[i];
      assert header[..i + 1] == header[..i] + [header[i]];
      i := i + 1;
    }
    i := 0;
    while i < |chunk|
      invariant 0 <= i <= |chunk|
      invariant payload[..|header| + i] == header + chunk[..i]
      invariant forall j :: |header| + i <= j < 8 ==> payload[j] == 0xFF
    {
      payload[|header| + i] := chunk[i];
      assert chunk[..i + 1] == chunk[..i] + [chunk[i]];
      i := i + 1;
    }
    p := payload[..];
    assert p == Pad8(header + chunk);
  }

  /** The frames the loop of buildFrames still has to build at byte `at`. */
  ghost function FramesFrom(isSlave: bool, channel: byte, nad: byte, data: seq<byte>, at: nat, k: nat): seq<LinEvent>
    requires at <= |data|
    decreases |data| - at
  {
    if at == |data| then []
    else
      var end := Min(at + 6, |data|);
      [Frame(isSlave, channel, Pad8([nad, 0x20 + k % 16] + data[at..end]))]
      + FramesFrom(isSlave, channel, nad, data, end, k + 1)
  }

  lemma {:induction false} FramesFromPayloads(isSlave: bool, channel: byte, nad: byte, data: seq<byte>, at: nat, k: nat)
    requires at <= |data|
    ensures FramesFrom(isSlave, channel, nad, data, at, k)
            == Frames(isSlave, channel, ConsecutiveFrames(nad, data[at..], k))
    decreases |data| - at
  {
    if at < |data| {
      var end, rest := Min(at + 6, |data|), data[at..];
      var n := Min(|rest|, 6);
      assert rest[..n] == data[at..end] && rest[n..] == data[end..];
      FramesFromPayloads(isSlave, channel, nad, data, end, k + 1);
      var ps := ConsecutiveFrames(nad, rest, k);
      assert ps[1..] == ConsecutiveFrames(nad, data[end..], k + 1);
    }
  }

  lemma FramesSplit(isSlave: bool, channel: byte, m: Sendable)
    ensures Frames(isSlave, channel, Payloads(m)) ==
      if |m.data| <= 5 then [Frame(isSlave, channel, SingleFrame(m))]
      else [Frame(isSlave, channel, FirstFrame(m))]
           + Frames(isSlave, channel, ConsecutiveFrames(m.nad, m.data[4..], 1))
  {
    if |m.data| > 5 {
      FramesConcat(isSlave, channel, [FirstFrame(m)], ConsecutiveFrames(m.nad, m.data[4..], 1));
    }
  }

  /** The loop of buildFrames: appends the consecutive frames of `data` from
      its fifth byte on. */
  method AppendConsecutive(isSlave: bool, channel: byte, nad: byte, data: seq<byte>, first: LinEvent)
    returns (frames: seq<LinEvent>)
    requires |data| >= 4
    ensures frames == [first] + Frames(isSlave, channel, ConsecutiveFrames(nad, data[4..], 1))
  {
    frames := [first];
    var currentByte := 4;
    var currentFrame := 0;
    ghost var k := 1;
    ghost var all := [first] + FramesFrom(isSlave, channel, nad, data, 4, 1);
    FramesFromPayloads(isSlave, channel, nad, data, 4, 1);
    while currentByte < |data|
      invariant 4 <= currentByte <= |data|
      invariant k >= 1 && currentFrame == (k - 1) % 16
      invariant frames + FramesFrom(isSlave, channel, nad, data, currentByte, k) == all
    {
      NextCounter(k - 1);
      currentFrame := (currentFrame + 1) % 16;
      var endByte := currentByte + 6;
      if endByte > |data| { endByte := |data|; }
      var payloadCF := FillPayload([nad, 0x20 + currentFrame], data[currentByte..endByte]);
      var frame := Frame(isSlave, channel, payloadCF);
      ConcatAssoc(frames, [frame], FramesFrom(isSlave, channel, nad, data, endByte, k + 1));
      frames := frames + [frame];
      currentByte := endByte;
      k := k + 1;
    }
    assert frames + [] == frames;
  }

  method BuildFrames(isSlave: bool, channel: byte, nad: byte, sid: byte, data: seq<byte>)
    returns (r: Result<seq<LinEvent>, TransportError>)
    ensures |data| > MAX_DATA ==> r == Err(MessageTooLong)
    ensures |data| <= MAX_DATA ==> r == Ok(Frames(isSlave, channel, Payloads(LinMessage(nad, sid, data))))
    ensures r.Ok? ==> |r.value| == FrameTotal(|data|) && forall e <- r.value :: DiagnosticEvent(isSlave, channel, e)
  {
    if |data| > MAX_DATA { return Err(MessageTooLong); }
    var dataLen := |data| + 1;
    FrameCount(LinMessage(nad, sid, data));
    forall i | 0 <= i < |Payloads(LinMessage(nad, sid, data))|
      ensures DiagnosticEvent(isSlave, channel, Frames(isSlave, channel, Payloads(LinMessage(nad, sid, data)))[i])
    {
      FrameFields(isSlave, channel, LinMessage(nad, sid, data), i);
    }
    FramesSplit(isSlave, channel, LinMessage(nad, sid, data));
    if dataLen <= 6 {
      var payload := FillPayload([nad, dataLen, sid], data);
      return Ok([Frame(isSlave, channel, payload)]);
    }
    var payloadFF := FillPayload([nad, 0x10 + dataLen / 256, dataLen % 256, sid], data[..4]);
    assert payloadFF == FirstFrame(LinMessage(nad, sid, data));
    var frames := AppendConsecutive(isSlave, channel, nad, data, Frame(isSlave, channel, payloadFF));
    return Ok(frames);
  }
}
