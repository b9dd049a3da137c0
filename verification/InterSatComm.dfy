/** Sending one message: stamping, then a local handler or the send queue
    (src/coordinator/inter_sat_comm.cpp). */
module InterSatComm {
  import opened Wrappers
  import opened WireCodec
  import opened Framing
  import MessageQueues

  function Target(dest: Bytes, m: Message): Bytes {
    if dest == [] then m.header.dest else dest
  }

  /** What became of a message. */
  datatype Route = NoDestination | Local(handler: Bytes, outbound: Message) | Queued | QueueFull

  class Comm {
    const nodeId: Bytes
    const sendQueue: MessageQueues.MessageQueue
    /** The next sequence number; `uint32_t`, so it wraps. */
    var sequenceId: uint32
    var localHandlers: set<Bytes>

    constructor (nodeId: Bytes, queueSize: nat)
      ensures this.nodeId == nodeId && sequenceId == 0 && localHandlers == {}
      ensures fresh(sendQueue) && sendQueue.maxSize == queueSize && sendQueue.queue == multiset{}
    {
      this.nodeId := nodeId;
      sendQueue := new MessageQueues.MessageQueue(queueSize);
      sequenceId := 0;
      localHandlers := {};
    }

    method RegisterLocalHandler(id: Bytes)
      modifies this`localHandlers
      ensures localHandlers == old(localHandlers) + if id == [] then {} else {id}
    {
      if id == [] {
        return;
      }
      localHandlers := localHandlers + {id};
    }

    method UnregisterLocalHandler(id: Bytes)
      modifies this`localHandlers
      ensures localHandlers == old(localHandlers) - {id}
    {
      localHandlers := localHandlers - {id};
    }

    method GetNextSequenceId() returns (id: uint32)
      modifies this`sequenceId
      ensures id == old(sequenceId) && sequenceId == (old(sequenceId) + 1) % 0x1_0000_0000
    {
      id := sequenceId;
      sequenceId := if sequenceId == 0xFFFF_FFFF then 0 else sequenceId + 1;
    }

    /** `stamp` and `now` are the clock readings of the header and of the queue. The source
        returns true for `Local` and `Queued`. */
    method SendMessage(dest: Bytes, message: Message, stamp: uint64, now: nat) returns (route: Route)
      modifies this`sequenceId, sendQueue`queue
      ensures route == NoDestination <==> Target(dest, message) == []
      ensures route == NoDestination ==> sequenceId == old(sequenceId) && sendQueue.queue == old(sendQueue.queue)
      ensures route != NoDestination ==>
        sequenceId == if message.header.sequenceId == 0 then (old(sequenceId) + 1) % 0x1_0000_0000 else old(sequenceId)
      ensures route.Local? <==> Target(dest, message) != [] && Target(dest, message) in localHandlers
      ensures route.Local? ==>
        && route.handler == Target(dest, message)
        && route.outbound == Stamped(nodeId, Target(dest, message), message, stamp, old(sequenceId))
        && sendQueue.queue == old(sendQueue.queue)
      ensures route == Queued || route == QueueFull ==>
        var out := Stamped(nodeId, Target(dest, message), message, stamp, old(sequenceId));
          MessageQueues.After(sendQueue.maxSize, old(sendQueue.queue),
                              MessageQueues.Pushed(MessageQueues.Entry(out, out.header.priority, now), route == Queued))
          == Some(sendQueue.queue)
    {
      var target := if dest == [] then message.header.dest else dest;
      if target == [] {
        return NoDestination;
      }
      var h := message.header;
      h := h.(magic := MAGIC_NUMBER, version := PROTOCOL_VERSION, dest := target);
      if h.source == [] {
        h := h.(source := nodeId);
      }
      if h.priority < EMERGENCY || h.priority > LOW {
        h := h.(priority := NORMAL);
      }
      if h.timestamp == 0 {
        h := h.(timestamp := stamp);
      }
      if h.sequenceId == 0 {
        var next := GetNextSequenceId();
        h := h.(sequenceId := next);
      }
      h := h.(payloadSize := |message.payload| % 0x1_0000_0000, checksum := 0);
      var outbound := Message(h, message.payload);
      assert outbound == Stamped(nodeId, target, message, stamp, old(sequenceId));
      if target in localHandlers {
        return Local(target, outbound);
      }
      var ok := sendQueue.Push(outbound, now);
      route := if ok then Queued else QueueFull;
    }
  }

  /** `processReceivedMessage` drops a message unless its magic number is right; a message
      without a destination goes to every local handler. */
  function Recipients(handlers: set<Bytes>, m: Message): set<Bytes> {
    if m.header.magic != MAGIC_NUMBER then {}
    else if m.header.dest == [] then handlers
    else handlers * {m.header.dest}
  }

  /** What the other end of a new connection gets of one message: `sendData` refuses too long a
      frame before it writes a byte. */
  function Arriving(m: Message): seq<Message> {
    Received(if Sendable(Serialized(m)) then Wire([m]) else [])
  }

  /** A given destination goes before the message's own. */
  lemma TargetMeans(dest: Bytes, m: Message)
    ensures dest != [] ==> Target(dest, m) == dest
    ensures dest == [] ==> Target(dest, m) == m.header.dest
  {
  }

  /** A message with the format's magic number reaches the handler of its destination, or without
      one every handler; any other message reaches none. */
  lemma RecipientsMean(handlers: set<Bytes>, m: Message, handler: Bytes)
    ensures handler in Recipients(handlers, m) <==>
            handler in handlers && m.header.magic == 0x53415443 && (m.header.dest == [] || m.header.dest == handler)
  {
  }

  /** A queued message, sent over any connection whatever its chunks, arrives as it was stamped
      exactly when both ids fit their length bytes and the whole of it fits a frame; it then
      reaches exactly the handler registered for its target. */
  lemma SentMessageIsDelivered(self: Bytes, target: Bytes, m: Message, stamp: uint64, sequence: uint32,
                               handlers: set<Bytes>)
    requires target != []
    ensures var out := Stamped(self, target, m, stamp, sequence); var source := out.header.source;
      && (Arriving(out) == [out] <==>
            |source| < 0x100 && |target| < 0x100 && 31 + |source| + |target| + |m.payload| <= MAX_FRAME_SIZE)
      && Recipients(handlers, out) == handlers * {target}
  {
    var out := Stamped(self, target, m, stamp, sequence);
    EncodedLength(out.header, out.payload);
    StampedIsTruthful(self, target, m, stamp, sequence);
    assert ReadNumber([], 4) == None;
    if Sendable(Serialized(out)) {
      StreamReassembles([out]);
    }
  }
}
