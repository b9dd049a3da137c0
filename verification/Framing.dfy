/** Length-prefixed frames over a byte stream that splits sends and receives anywhere
    (src/coordinator/inter_sat_comm.cpp). */
module Framing {
  import opened Wrappers
  import opened WireCodec

  const MAX_FRAME_SIZE: nat := 0x80_0000

  // ----- what is sent -----

  /** The payloads `sendData` does not refuse. */
  predicate Sendable(d: Bytes) {
    0 < |d| <= MAX_FRAME_SIZE
  }

  function Frame(d: Bytes): (r: Bytes)
    ensures |r| == 4 + |d|
  {
    BigEndian(|d|, 4) + d
  }

  /** The stream that carries a list of messages. */
  function Wire(messages: seq<Message>): Bytes {
    if messages == [] then [] else Frame(Serialized(messages[0])) + Wire(messages[1..])
  }

  // ----- what is received -----

  /** One `receiveData` on a connection that delivers `stream` and then fails: the frame's
      content and the bytes left. */
  function ReceivedFrame(stream: Bytes): Option<(Bytes, Bytes)> {
    var (size, rest) :- ReadNumber(stream, 4);
    if size == 0 || size > MAX_FRAME_SIZE || size > |rest| then None else Some((rest[..size], rest[size..]))
  }

  /** The messages the receive thread hands on until the connection fails; a frame that does
      not decode is skipped. */
  function Received(stream: Bytes): seq<Message>
    decreases |stream|
  {
    match ReceivedFrame(stream)
    case None => []
    case Some((data, rest)) => Handed(Deserialized(data)) + Received(rest)
  }

  /** A frame is four bytes of length, most significant first, and that many bytes, at least one and
      at most 8 MiB; nothing else is received. */
  lemma FrameMeans(a: byte, b: byte, c: byte, e: byte, rest: Bytes)
    ensures var size := Wide(a) * 0x100_0000 + Wide(b) * 0x1_0000 + Wide(c) * 0x100 + Wide(e);
      ReceivedFrame([a, b, c, e] + rest) ==
      if 1 <= size <= 8_388_608 && size <= |rest| then Some((rest[..size], rest[size..])) else None
  {
    var d := [a, b, c, e];
    assert (d + rest)[..4] == d && (d + rest)[4..] == rest;
    FourBytes(d);
  }

  /** And nothing else is sent. */
  lemma SendableMeans(d: Bytes)
    ensures Sendable(d) <==> 1 <= |d| <= 8_388_608
  {
  }

  function Handed(m: Option<Message>): seq<Message> {
    if m.Some? then [m.value] else []
  }

  lemma FrameReceived(d: Bytes, rest: Bytes)
    requires Sendable(d)
    ensures ReceivedFrame(Frame(d) + rest) == Some((d, rest))
  {
    Powers();
    Cat(BigEndian(|d|, 4), d, rest);
    ReadNumberBack(|d|, 4, d + rest);
    assert (d + rest)[..|d|] == d && (d + rest)[|d|..] == rest;
  }

  lemma HandOn(messages: seq<Message>, m: Option<Message>, later: seq<Message>)
    ensures messages + (Handed(m) + later) == (if m.Some? then messages + [m.value] else messages) + later
  {
  }

  lemma FirstReceived(m: Message, rest: Bytes)
    requires Sendable(Serialized(m))
    ensures Received(Frame(Serialized(m)) + rest) == Handed(Deserialized(Serialized(m))) + Received(rest)
  {
    FrameReceived(Serialized(m), rest);
  }

  predicate AllSendable(messages: seq<Message>) {
    forall m <- messages :: Sendable(Serialized(m))
  }

  predicate AllTruthful(messages: seq<Message>) {
    forall m <- messages :: Truthful(m)
  }

  /** What arrives is what was sent, in order, exactly when every message is truthful. */
  lemma {:induction false} StreamReassembles(messages: seq<Message>)
    requires AllSendable(messages)
    ensures |Received(Wire(messages))| <= |messages|
    ensures Received(Wire(messages)) == messages <==> AllTruthful(messages)
  {
    if messages == [] {
      assert ReadNumber([], 4) == None;
    } else {
      var m, rest := messages[0], messages[1..];
      StreamReassembles(rest);
      FirstReceived(m, Wire(rest));
      RoundTrip(m, []);
      assert Serialized(m) + [] == Serialized(m);
      HeadsAndTails(Handed(Deserialized(Serialized(m))), Received(Wire(rest)), m, rest);
      TruthfulOneMore(m, rest);
      assert messages == [m] + rest;
    }
  }

  lemma TruthfulOneMore(m: Message, rest: seq<Message>)
    ensures AllTruthful([m] + rest) <==> Truthful(m) && AllTruthful(rest)
  {
  }

  lemma HeadsAndTails(a: seq<Message>, b: seq<Message>, m: Message, rest: seq<Message>)
    requires |a| <= 1 && |b| <= |rest|
    ensures a + b == [m] + rest <==> a == [m] && b == rest
  {
    if a + b == [m] + rest {
      assert |a| == 1 && (a + b)[0] == m;
      assert b == (a + b)[1..] && rest == ([m] + rest)[1..];
    }
  }

  // ----- a stream cut at any byte -----

  /** How many messages lie whole in the first `n` bytes of `Wire(messages)`. */
  function WholeFrames(messages: seq<Message>, n: nat): (k: nat)
    ensures k <= |messages|
  {
    if messages == [] || n < |Frame(Serialized(messages[0]))| then 0
    else 1 + WholeFrames(messages[1..], n - |Frame(Serialized(messages[0]))|)
  }

  lemma TakeOneMore(messages: seq<Message>, k: nat)
    requires k < |messages|
    ensures messages[..1 + k] == [messages[0]] + messages[1..][..k]
  {
  }

  lemma WireOfTake(messages: seq<Message>, k: nat)
    requires k < |messages|
    ensures Wire(messages[..1 + k]) == Frame(Serialized(messages[0])) + Wire(messages[1..][..k])
  {
    TakeOneMore(messages, k);
    assert ([messages[0]] + messages[1..][..k])[1..] == messages[1..][..k];
  }

  /** The first `k` messages fit in `n` bytes, and one more would not. */
  predicate IsMostThatFits(messages: seq<Message>, n: nat, k: nat) {
    && k <= |messages| && |Wire(messages[..k])| <= n
    && (k < |messages| ==> n < |Wire(messages[..k + 1])|)
  }

  lemma OneMoreFits(messages: seq<Message>, n: nat, k: nat)
    requires messages != [] && |Frame(Serialized(messages[0]))| <= n
    requires IsMostThatFits(messages[1..], n - |Frame(Serialized(messages[0]))|, k)
    ensures IsMostThatFits(messages, n, 1 + k)
  {
    WireOfTake(messages, k);
    if 1 + k < |messages| {
      WireOfTake(messages, k + 1);
    }
  }

  /** `WholeFrames` counts the largest prefix of the list whose stream fits in `n` bytes. */
  lemma {:induction false} WholeFramesIsMaximal(messages: seq<Message>, n: nat)
    ensures IsMostThatFits(messages, n, WholeFrames(messages, n))
  {
    var k := WholeFrames(messages, n);
    if messages == [] {
    } else if k == 0 {
      WireOfTake(messages, 0);
    } else {
      WholeFramesIsMaximal(messages[1..], n - |Frame(Serialized(messages[0]))|);
      OneMoreFits(messages, n, k - 1);
    }
  }

  lemma CutFrameFails(d: Bytes, n: nat)
    requires Sendable(d) && n < |Frame(d)|
    ensures ReceivedFrame(Frame(d)[..n]) == None
  {
    if n >= 4 {
      Powers();
      BigEndianInverse(|d|, 4);
      assert Frame(d)[..n][..4] == BigEndian(|d|, 4);
    }
  }

  lemma TakeFromSum(a: Bytes, b: Bytes, n: nat)
    requires n <= |a| + |b|
    ensures (a + b)[..n] == if n < |a| then a[..n] else a + b[..n - |a|]
  {
  }

  /** A cut stream is the whole frames in it and a piece that yields nothing. */
  lemma {:induction false} CutSplits(messages: seq<Message>, n: nat) returns (tail: Bytes)
    requires AllSendable(messages) && n <= |Wire(messages)|
    ensures Wire(messages)[..n] == Wire(messages[..WholeFrames(messages, n)]) + tail && ReceivedFrame(tail) == None
  {
    if messages == [] {
      tail := [];
      assert ReadNumber([], 4) == None;
    } else {
      var rest, frame := messages[1..], Frame(Serialized(messages[0]));
      TakeFromSum(frame, Wire(rest), n);
      if n < |frame| {
        tail := frame[..n];
        CutFrameFails(Serialized(messages[0]), n);
        assert Wire(messages[..0]) + tail == tail;
      } else {
        tail := CutSplits(rest, n - |frame|);
        var k := WholeFrames(rest, n - |frame|);
        WireOfTake(messages, k);
        Cat(frame, Wire(rest[..k]), tail);
      }
    }
  }

  /** A stream cut at any byte yields what its whole frames yield: exactly the messages that
      arrived whole, if and only if these are truthful. */
  lemma CutStream(messages: seq<Message>, n: nat)
    requires AllSendable(messages) && n <= |Wire(messages)|
    ensures var whole := messages[..WholeFrames(messages, n)];
      && Received(Wire(messages)[..n]) == Received(Wire(whole))
      && (Received(Wire(messages)[..n]) == whole <==> AllTruthful(whole))
  {
    var tail := CutSplits(messages, n);
    TrailingBytesIgnored(messages[..WholeFrames(messages, n)], tail);
  }

  /** Bytes of an unfinished frame behind whole ones yield nothing. */
  lemma TrailingBytesIgnored(messages: seq<Message>, tail: Bytes)
    requires AllSendable(messages) && ReceivedFrame(tail) == None
    ensures Received(Wire(messages) + tail) == Received(Wire(messages))
    ensures Received(Wire(messages) + tail) == messages <==> AllTruthful(messages)
  {
    ReceivedBefore(messages, tail);
    StreamReassembles(messages);
  }

  lemma {:induction false} ReceivedBefore(messages: seq<Message>, tail: Bytes)
    requires AllSendable(messages) && ReceivedFrame(tail) == None
    ensures Received(Wire(messages) + tail) == Received(Wire(messages))
  {
    if messages == [] {
      assert [] + tail == tail;
      assert ReadNumber([], 4) == None;
    } else {
      var m, rest := messages[0], messages[1..];
      ReceivedBefore(rest, tail);
      Cat(Frame(Serialized(m)), Wire(rest), tail);
      FirstReceived(m, Wire(rest) + tail);
      FirstReceived(m, Wire(rest));
    }
  }

  // ----- the socket routines -----

  /** A connected socket: the bytes the peer will still deliver before the connection fails,
      and the bytes handed to the network so far. How many bytes one call moves is the
      network's choice. */
  class Socket {
    var inbound: Bytes
    var outbound: Bytes

    constructor (stream: Bytes)
      ensures inbound == stream && outbound == []
    {
      inbound, outbound := stream, [];
    }

    /** `recv`: at least one byte, at most `limit`; 0 once the connection has failed. */
    method Recv(buffer: array<byte>, offset: nat, limit: nat) returns (received: nat)
      requires 0 < limit && offset + limit <= buffer.Length
      modifies this`inbound, buffer
      ensures received <= limit && received <= |old(inbound)| && (received == 0 <==> old(inbound) == [])
      ensures inbound == old(inbound)[received..]
      ensures buffer[..offset] == old(buffer[..offset])
      ensures buffer[offset..offset + received] == old(inbound)[..received]
    {
      if inbound == [] {
        return 0;
      }
      received :| 1 <= received <= limit && received <= |inbound|;
      var chunk := inbound[..received];
      forall i | 0 <= i < received {
        buffer[offset + i] := chunk[i];
      }
      inbound := inbound[received..];
    }

    /** `send`: some prefix of `data`; empty when the connection has failed. */
    method Send(data: Bytes) returns (sent: nat)
      requires data != []
      modifies this`outbound
      ensures sent <= |data| && outbound == old(outbound) + data[..sent]
    {
      sent :| 0 <= sent <= |data|;
      outbound := outbound + data[..sent];
    }

    /** Fills the buffer, unless the stream ends first. */
    method RecvAll(buffer: array<byte>) returns (ok: bool)
      modifies this`inbound, buffer
      ensures ok <==> |old(inbound)| >= buffer.Length
      ensures ok ==> buffer[..] == old(inbound)[..buffer.Length] && inbound == old(inbound)[buffer.Length..]
    {
      ghost var before := inbound;
      var total := 0;
      while total < buffer.Length
        invariant 0 <= total <= buffer.Length && total <= |before|
        invariant inbound == before[total..] && buffer[..total] == before[..total]
      {
        var received := Recv(buffer, total, buffer.Length - total);
        if received == 0 {
          return false;
        }
        assert buffer[..total + received] == buffer[..total] + buffer[total..total + received];
        assert before[..total + received] == before[..total] + before[total..][..received];
        total := total + received;
      }
      ok := true;
    }

    /** Sends everything, or leaves a strict prefix behind. */
    method SendAll(data: Bytes) returns (ok: bool)
      modifies this`outbound
      ensures ok ==> outbound == old(outbound) + data
      ensures !ok ==> exists n :: 0 <= n < |data| && outbound == old(outbound) + data[..n]
    {
      ghost var before := outbound;
      var total := 0;
      while total < |data|
        invariant 0 <= total <= |data| && outbound == before + data[..total]
      {
        var sent := Send(data[total..]);
        if sent == 0 {
          return false;
        }
        assert data[..total] + data[total..][..sent] == data[..total + sent];
        total := total + sent;
      }
      ok := true;
    }

    /** `sendData`. */
    method SendData(data: Bytes) returns (ok: bool)
      modifies this`outbound
      ensures ok ==> Sendable(data) && outbound == old(outbound) + Frame(data)
      ensures !ok ==> exists n :: 0 <= n < |Frame(data)| && outbound == old(outbound) + Frame(data)[..n] &&
                                  (n == 0 || Sendable(data))
    {
      ghost var before := outbound;
      if |data| == 0 || |data| > MAX_FRAME_SIZE {
        assert outbound == before + Frame(data)[..0];
        return false;
      }
      var size: uint32 := |data|;
      var header := [size / 0x100_0000 % 0x100, size / 0x1_0000 % 0x100, size / 0x100 % 0x100, size % 0x100];
      Bytes4(size);
      ok := SendAll(header);
      if !ok {
        ghost var n :| 0 <= n < |header| && outbound == before + header[..n];
        assert Frame(data)[..n] == header[..n];
        return;
      }
      ok := SendAll(data);
      if !ok {
        ghost var n :| 0 <= n < |data| && outbound == before + header + data[..n];
        assert Frame(data)[..4 + n] == header + data[..n];
        assert before + header + data[..n] == before + Frame(data)[..4 + n];
        return;
      }
      assert before + header + data == before + Frame(data);
    }

    /** `receiveData`. */
    method ReceiveData() returns (data: Option<Bytes>)
      modifies this`inbound
      ensures ReceivedFrame(old(inbound)) == if data.Some? then Some((data.value, inbound)) else None
      ensures data.Some? ==> |inbound| < |old(inbound)|
    {
      ghost var before := inbound;
      var header := new byte[4];
      var ok := RecvAll(header);
      if !ok {
        return None;
      }
      ghost var prefix := before[..4];
      assert header[..] == prefix;
      var size := Wide(header[0]) * 0x100_0000 + Wide(header[1]) * 0x1_0000 + Wide(header[2]) * 0x100 + Wide(header[3]);
      FourBytes(prefix);
      assert size == FromBigEndian(prefix);
      if size == 0 || size > MAX_FRAME_SIZE {
        return None;
      }
      var buffer := new byte[size];
      ok := RecvAll(buffer);
      if !ok {
        return None;
      }
      data := Some(buffer[..]);
    }

    /** The receive thread's work on one connection, until it fails. */
    method ReceiveMessages() returns (messages: seq<Message>)
      modifies this`inbound
      ensures messages == Received(old(inbound))
    {
      messages := [];
      var data := ReceiveData();
      ghost var stream := old(inbound);
      while data.Some?
        invariant ReceivedFrame(stream) == if data.Some? then Some((data.value, inbound)) else None
        invariant Received(old(inbound)) == messages + Received(stream)
        decreases |stream|
      {
        var decoded := DeserializeMessage(data.value);
        HandOn(messages, decoded, Received(inbound));
        if decoded.Some? {
          messages := messages + [decoded.value];
        }
        stream := inbound;
        data := ReceiveData();
      }
    }

    /** The send thread's work on one connection: it stops at the first failing send, and
        leaves whole frames and possibly a piece of the next one on the wire. On a new
        connection the other end gets exactly the messages sent whole, if they are truthful. */
    method SendMessages(messages: seq<Message>) returns (sent: nat)
      modifies this`outbound
      ensures sent <= |messages| && AllSendable(messages[..sent])
      ensures exists tail :: ReceivedFrame(tail) == None && outbound == old(outbound) + (Wire(messages[..sent]) + tail)
      ensures sent == |messages| ==> outbound == old(outbound) + Wire(messages)
      ensures old(outbound) == [] ==> (Received(outbound) == messages[..sent] <==> AllTruthful(messages[..sent]))
    {
      sent := 0;
      ghost var before := outbound;
      assert messages[..0] == [] && before + [] == before;
      while sent < |messages|
        invariant 0 <= sent <= |messages|
        invariant outbound == before + Wire(messages[..sent]) && AllSendable(messages[..sent])
      {
        var data := Serialize(messages[sent]);
        ghost var whole := outbound;
        var ok := SendData(data);
        if !ok {
          ghost var n :| 0 <= n < |Frame(data)| && outbound == whole + Frame(data)[..n] && (n == 0 || Sendable(data));
          PieceFails(data, n);
          Stopped(before, messages[..sent], Frame(data)[..n], outbound);
          return;
        }
        SentOneMore(messages, sent);
        Cat(before, Wire(messages[..sent]), Frame(data));
        sent := sent + 1;
      }
      assert messages[..sent] == messages;
      StoppedWhole(before, messages, outbound);
    }
  }

  lemma PieceFails(data: Bytes, n: nat)
    requires n < |Frame(data)| && (n == 0 || Sendable(data))
    ensures ReceivedFrame(Frame(data)[..n]) == None
  {
    if n > 0 {
      CutFrameFails(data, n);
    }
  }

  lemma StoppedWhole(before: Bytes, messages: seq<Message>, stream: Bytes)
    requires AllSendable(messages) && stream == before + Wire(messages)
    ensures exists tail :: ReceivedFrame(tail) == None && stream == before + (Wire(messages) + tail)
    ensures before == [] ==> (Received(stream) == messages <==> AllTruthful(messages))
  {
    assert stream + [] == stream;
    Stopped(before, messages, [], stream);
  }

  lemma Stopped(before: Bytes, messages: seq<Message>, tail: Bytes, stream: Bytes)
    requires AllSendable(messages) && ReceivedFrame(tail) == None
    requires stream == before + Wire(messages) + tail
    ensures exists rest :: ReceivedFrame(rest) == None && stream == before + (Wire(messages) + rest)
    ensures before == [] ==> (Received(stream) == messages <==> AllTruthful(messages))
  {
    Cat(before, Wire(messages), tail);
    if before == [] {
      TrailingBytesIgnored(messages, tail);
      assert stream == Wire(messages) + tail;
    }
  }

  lemma {:induction false} WireSnoc(messages: seq<Message>, m: Message)
    ensures Wire(messages + [m]) == Wire(messages) + Frame(Serialized(m))
  {
    if messages == [] {
      assert [m][1..] == [] && messages + [m] == [m];
      assert Frame(Serialized(m)) + [] == Frame(Serialized(m)) && [] + Frame(Serialized(m)) == Frame(Serialized(m));
    } else {
      assert (messages + [m])[1..] == messages[1..] + [m];
      WireSnoc(messages[1..], m);
      Cat(Frame(Serialized(messages[0])), Wire(messages[1..]), Frame(Serialized(m)));
    }
  }

  lemma SentOneMore(messages: seq<Message>, sent: nat)
    requires sent < |messages| && AllSendable(messages[..sent]) && Sendable(Serialized(messages[sent]))
    ensures AllSendable(messages[..sent + 1])
    ensures Wire(messages[..sent + 1]) == Wire(messages[..sent]) + Frame(Serialized(messages[sent]))
  {
    assert messages[..sent + 1] == messages[..sent] + [messages[sent]];
    WireSnoc(messages[..sent], messages[sent]);
  }
}
