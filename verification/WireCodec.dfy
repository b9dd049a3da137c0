/** The message header codec (src/coordinator/inter_sat_comm.cpp, message_types.h). */
module WireCodec {
  import opened Wrappers

  type byte = b: int | 0 <= b < 0x100
  type uint16 = n: int | 0 <= n < 0x1_0000
  type uint32 = n: int | 0 <= n < 0x1_0000_0000
  type uint64 = n: int | 0 <= n < 0x1_0000_0000_0000_0000

  /** `std::string` and `std::vector<uint8_t>` alike. */
  type Bytes = seq<byte>

  const MAGIC_NUMBER: uint32 := 0x53415443
  const PROTOCOL_VERSION: uint16 := 0x0100
  const EMERGENCY: byte := 1
  const NORMAL: byte := 3
  const LOW: byte := 4

  /** `priority` is the underlying `uint8_t` of the enumeration. */
  datatype Header = Header(
    magic: uint32, version: uint16, msgType: uint16, sequenceId: uint32, timestamp: uint64,
    source: Bytes, dest: Bytes, priority: byte, payloadSize: uint32, checksum: uint32)

  datatype Message = Message(header: Header, payload: Bytes)

  // ----- big-endian numbers -----

  /** A byte widened to an integer, as the shifts in the readers do. */
  function Wide(b: byte): int {
    b
  }

  function BigEndian(v: nat, n: nat): (r: Bytes)
    ensures |r| == n
  {
    if n == 0 then [] else BigEndian(v / 0x100, n - 1) + [v % 0x100]
  }

  function FromBigEndian(d: Bytes): nat {
    if d == [] then 0 else FromBigEndian(d[..|d| - 1]) * 0x100 + Wide(d[|d| - 1])
  }

  function Power(n: nat): nat {
    if n == 0 then 1 else 0x100 * Power(n - 1)
  }

  lemma {:induction false} BigEndianInverse(v: nat, n: nat)
    requires v < Power(n)
    ensures FromBigEndian(BigEndian(v, n)) == v
  {
    if n > 0 {
      BigEndianInverse(v / 0x100, n - 1);
      assert BigEndian(v, n)[..n - 1] == BigEndian(v / 0x100, n - 1);
    }
  }

  lemma {:induction false} FromBigEndianInverse(d: Bytes)
    ensures FromBigEndian(d) < Power(|d|) && BigEndian(FromBigEndian(d), |d|) == d
  {
    if d != [] {
      var front, last := d[..|d| - 1], d[|d| - 1];
      FromBigEndianInverse(front);
      LastByte(FromBigEndian(front), last, Power(|d| - 1));
      assert d == front + [last];
    }
  }

  lemma LastByte(v: nat, b: byte, bound: nat)
    requires v < bound
    ensures (v * 0x100 + Wide(b)) / 0x100 == v && (v * 0x100 + Wide(b)) % 0x100 == Wide(b)
    ensures v * 0x100 + Wide(b) < 0x100 * bound
  {
  }

  lemma Powers()
    ensures Power(2) == 0x1_0000 && Power(4) == 0x1_0000_0000 && Power(8) == 0x1_0000_0000_0000_0000
  {
    assert Power(3) == 0x100_0000;
    assert Power(6) == 0x1_0000_0000_0000;
  }

  // ----- encoding -----

  /** The part of a serialized message from the destination's length on. */
  function Tail(h: Header, rest: Bytes): Bytes {
    [|h.dest| % 0x100] + (h.dest + ([h.priority] + (BigEndian(h.payloadSize, 4) + (BigEndian(h.checksum, 4) + rest))))
  }

  /** The serialized header, followed by `rest`. Lengths are cast to `uint8_t`. */
  function Encoded(h: Header, rest: Bytes): Bytes {
    BigEndian(h.magic, 4) + (BigEndian(h.version, 2) + (BigEndian(h.msgType, 2) + (BigEndian(h.sequenceId, 4) +
    (BigEndian(h.timestamp, 8) + ([|h.source| % 0x100] + (h.source + Tail(h, rest)))))))
  }

  function Serialized(m: Message): Bytes {
    Encoded(m.header, m.payload)
  }

  // ----- decoding -----

  function ReadNumber(d: Bytes, n: nat): Option<(nat, Bytes)> {
    if |d| < n then None else Some((FromBigEndian(d[..n]), d[n..]))
  }

  function ReadString(d: Bytes): Option<(Bytes, Bytes)> {
    if d == [] || |d| < 1 + Wide(d[0]) then None else Some((d[1..1 + Wide(d[0])], d[1 + Wide(d[0])..]))
  }

  function Normalized(priority: byte): byte {
    if EMERGENCY <= priority <= LOW then priority else NORMAL
  }

  datatype Fixed = Fixed(magic: uint32, version: uint16, msgType: uint16, sequenceId: uint32, timestamp: uint64)

  function ReadFixed(d: Bytes): Option<(Fixed, Bytes)> {
    var (magic, d1) :- ReadNumber(d, 4);
    var (version, d2) :- ReadNumber(d1, 2);
    var (msgType, d3) :- ReadNumber(d2, 2);
    var (sequenceId, d4) :- ReadNumber(d3, 4);
    var (timestamp, d5) :- ReadNumber(d4, 8);
    NumbersFit(d, 4); NumbersFit(d1, 2); NumbersFit(d2, 2); NumbersFit(d3, 4); NumbersFit(d4, 8);
    Some((Fixed(magic, version, msgType, sequenceId, timestamp), d5))
  }

  lemma NumbersFit(d: Bytes, n: nat)
    requires n == 2 || n == 4 || n == 8
    ensures var r := ReadNumber(d, n);
      r.Some? ==> r.value.0 < (if n == 2 then 0x1_0000 else if n == 4 then 0x1_0000_0000 else 0x1_0000_0000_0000_0000)
  {
    Powers();
    if n <= |d| {
      FromBigEndianInverse(d[..n]);
    }
  }

  function ReadPayload(fixed: Fixed, source: Bytes, dest: Bytes, priority: byte, d: Bytes): Option<Message> {
    var (payloadSize, d1) :- ReadNumber(d, 4);
    var (checksum, d2) :- ReadNumber(d1, 4);
    NumbersFit(d, 4); NumbersFit(d1, 4);
    if payloadSize > |d2| then None
    else
      Some(Message(Header(fixed.magic, fixed.version, fixed.msgType, fixed.sequenceId, fixed.timestamp,
                          source, dest, Normalized(priority), payloadSize, checksum), d2[..payloadSize]))
  }

  /** `deserializeMessage`; bytes behind the payload are ignored. */
  function Deserialized(d: Bytes): Option<Message> {
    var (fixed, d1) :- ReadFixed(d);
    var (source, d2) :- ReadString(d1);
    var (dest, d3) :- ReadString(d2);
    if d3 == [] then None else ReadPayload(fixed, source, dest, d3[0], d3[1..])
  }

  // ----- decode after encode -----

  lemma ReadNumberBack(v: nat, n: nat, rest: Bytes)
    requires v < Power(n)
    ensures ReadNumber(BigEndian(v, n) + rest, n) == Some((v, rest))
  {
    BigEndianInverse(v, n);
    assert (BigEndian(v, n) + rest)[..n] == BigEndian(v, n) && (BigEndian(v, n) + rest)[n..] == rest;
  }

  lemma ReadStringBack(s: Bytes, rest: Bytes)
    requires |s| < 0x100
    ensures ReadString([|s| % 0x100] + (s + rest)) == Some((s, rest))
  {
    var d := [|s| % 0x100] + (s + rest);
    assert d[1..1 + |s|] == s && d[1 + |s|..] == rest;
  }

  function FixedOf(h: Header): Fixed {
    Fixed(h.magic, h.version, h.msgType, h.sequenceId, h.timestamp)
  }

  function Front(f: Fixed, rest: Bytes): Bytes {
    BigEndian(f.magic, 4) + (BigEndian(f.version, 2) + (BigEndian(f.msgType, 2) + (BigEndian(f.sequenceId, 4) +
    (BigEndian(f.timestamp, 8) + rest))))
  }

  lemma ReadFixedBack(f: Fixed, rest: Bytes)
    ensures ReadFixed(Front(f, rest)) == Some((f, rest))
  {
    Powers();
    var r4 := BigEndian(f.timestamp, 8) + rest;
    var r3 := BigEndian(f.sequenceId, 4) + r4;
    var r2 := BigEndian(f.msgType, 2) + r3;
    ReadNumberBack(f.timestamp, 8, rest);
    ReadNumberBack(f.sequenceId, 4, r4);
    ReadNumberBack(f.msgType, 2, r3);
    ReadNumberBack(f.version, 2, r2);
    ReadNumberBack(f.magic, 4, BigEndian(f.version, 2) + r2);
  }

  /** The sizes the format can carry. */
  predicate Fits(h: Header, payload: Bytes) {
    |h.source| < 0x100 && |h.dest| < 0x100 && h.payloadSize == |payload|
  }

  lemma ReadPayloadBack(h: Header, payload: Bytes, suffix: Bytes)
    requires Fits(h, payload)
    ensures ReadPayload(FixedOf(h), h.source, h.dest, h.priority,
                        BigEndian(h.payloadSize, 4) + (BigEndian(h.checksum, 4) + (payload + suffix))) ==
            Some(Message(h.(priority := Normalized(h.priority)), payload))
  {
    Powers();
    ReadNumberBack(h.checksum, 4, payload + suffix);
    ReadNumberBack(h.payloadSize, 4, BigEndian(h.checksum, 4) + (payload + suffix));
    assert (payload + suffix)[..|payload|] == payload;
  }

  lemma DecodeEncoded(h: Header, payload: Bytes, suffix: Bytes)
    requires Fits(h, payload)
    ensures Deserialized(Encoded(h, payload + suffix)) == Some(Message(h.(priority := Normalized(h.priority)), payload))
  {
    var numbers := BigEndian(h.payloadSize, 4) + (BigEndian(h.checksum, 4) + (payload + suffix));
    var tail := Tail(h, payload + suffix);
    var strings := [|h.source| % 0x100] + (h.source + tail);
    assert Encoded(h, payload + suffix) == Front(FixedOf(h), strings);
    ReadFixedBack(FixedOf(h), strings);
    ReadStringBack(h.source, tail);
    ReadStringBack(h.dest, [h.priority] + numbers);
    assert ([h.priority] + numbers)[1..] == numbers;
    ReadPayloadBack(h, payload, suffix);
  }

  // ----- encode after decode -----

  lemma ReadNumberSplits(d: Bytes, n: nat)
    requires ReadNumber(d, n).Some?
    ensures var (v, rest) := ReadNumber(d, n).value;
      v < Power(n) && d == BigEndian(v, n) + rest
  {
    FromBigEndianInverse(d[..n]);
  }

  lemma ReadStringSplits(d: Bytes)
    requires ReadString(d).Some?
    ensures var (s, rest) := ReadString(d).value;
      |s| < 0x100 && d == [|s| % 0x100] + (s + rest)
  {
  }

  lemma ReadFixedSplits(d: Bytes)
    requires ReadFixed(d).Some?
    ensures d == Front(ReadFixed(d).value.0, ReadFixed(d).value.1)
  {
    var d1 := ReadNumber(d, 4).value.1;
    var d2 := ReadNumber(d1, 2).value.1;
    var d3 := ReadNumber(d2, 2).value.1;
    var d4 := ReadNumber(d3, 4).value.1;
    ReadNumberSplits(d, 4);
    ReadNumberSplits(d1, 2);
    ReadNumberSplits(d2, 2);
    ReadNumberSplits(d3, 4);
    ReadNumberSplits(d4, 8);
  }

  lemma ReadPayloadSplits(fixed: Fixed, source: Bytes, dest: Bytes, priority: byte, d: Bytes) returns (suffix: Bytes)
    requires ReadPayload(fixed, source, dest, priority, d).Some?
    ensures var m := ReadPayload(fixed, source, dest, priority, d).value; var h := m.header;
      && FixedOf(h) == fixed && h.source == source && h.dest == dest && h.priority == Normalized(priority)
      && h.payloadSize == |m.payload|
      && d == BigEndian(h.payloadSize, 4) + (BigEndian(h.checksum, 4) + (m.payload + suffix))
  {
    var d1 := ReadNumber(d, 4).value.1;
    var (checksum, d2) := ReadNumber(d1, 4).value;
    ReadNumberSplits(d, 4);
    ReadNumberSplits(d1, 4);
    var m := ReadPayload(fixed, source, dest, priority, d).value;
    suffix := d2[m.header.payloadSize..];
    TakeAndDrop(d2, m.header.payloadSize);
  }

  lemma Assembled(h: Header, d1: Bytes, d2: Bytes, d4: Bytes, rest: Bytes)
    requires d1 == [|h.source| % 0x100] + (h.source + d2)
    requires d2 == [|h.dest| % 0x100] + (h.dest + ([h.priority] + d4))
    requires d4 == BigEndian(h.payloadSize, 4) + (BigEndian(h.checksum, 4) + rest)
    ensures Front(FixedOf(h), d1) == Encoded(h, rest)
  {
  }

  lemma TakeAndDrop(d: Bytes, n: nat)
    requires n <= |d|
    ensures d == d[..n] + d[n..]
  {
  }

  lemma Slices(d: Bytes, pos: nat, n: nat)
    requires pos + n <= |d|
    ensures d[pos..][..n] == d[pos..pos + n] && d[pos..][n..] == d[pos + n..]
  {
  }

  lemma HeadAndRest(d: Bytes)
    requires d != []
    ensures d == [d[0]] + d[1..]
  {
  }

  /** Whatever decodes is an encoding, of the decoded message with some priority byte, followed
      by bytes that were ignored. */
  lemma DecodedWasEncoded(d: Bytes) returns (priority: byte, suffix: Bytes)
    requires Deserialized(d).Some?
    ensures var m := Deserialized(d).value;
      && Fits(m.header, m.payload) && m.header.priority == Normalized(priority)
      && d == Encoded(m.header.(priority := priority), m.payload + suffix)
  {
    var (fixed, d1) := ReadFixed(d).value;
    var (source, d2) := ReadString(d1).value;
    var (dest, d3) := ReadString(d2).value;
    ReadFixedSplits(d);
    ReadStringSplits(d1);
    ReadStringSplits(d2);
    HeadAndRest(d3);
    priority := d3[0];
    suffix := ReadPayloadSplits(fixed, source, dest, priority, d3[1..]);
    var m := Deserialized(d).value;
    Assembled(m.header.(priority := priority), d1, d2, d3[1..], m.payload + suffix);
  }

  // ----- the theorems -----

  /** Messages the codec carries faithfully. */
  predicate Truthful(m: Message) {
    Fits(m.header, m.payload) && EMERGENCY <= m.header.priority <= LOW
  }

  lemma EncodedAppend(h: Header, payload: Bytes, suffix: Bytes)
    ensures Encoded(h, payload) + suffix == Encoded(h, payload + suffix)
  {
    TailAppend(h, payload, suffix);
    FrontAppend(FixedOf(h), [|h.source| % 0x100] + (h.source + Tail(h, payload)), suffix);
    Cat([|h.source| % 0x100], h.source + Tail(h, payload), suffix);
    Cat(h.source, Tail(h, payload), suffix);
  }

  lemma Cat(a: Bytes, b: Bytes, c: Bytes)
    ensures a + b + c == a + (b + c)
  {
  }

  lemma TailAppend(h: Header, rest: Bytes, suffix: Bytes)
    ensures Tail(h, rest) + suffix == Tail(h, rest + suffix)
  {
    var checksum := BigEndian(h.checksum, 4);
    var sizes := BigEndian(h.payloadSize, 4);
    Cat(checksum, rest, suffix);
    Cat(sizes, checksum + rest, suffix);
    Cat([h.priority], sizes + (checksum + rest), suffix);
    Cat(h.dest, [h.priority] + (sizes + (checksum + rest)), suffix);
    Cat([|h.dest| % 0x100], h.dest + ([h.priority] + (sizes + (checksum + rest))), suffix);
  }

  lemma FrontAppend(f: Fixed, rest: Bytes, suffix: Bytes)
    ensures Front(f, rest) + suffix == Front(f, rest + suffix)
  {
    var r4 := BigEndian(f.timestamp, 8) + rest;
    var r3 := BigEndian(f.sequenceId, 4) + r4;
    var r2 := BigEndian(f.msgType, 2) + r3;
    Cat(BigEndian(f.timestamp, 8), rest, suffix);
    Cat(BigEndian(f.sequenceId, 4), r4, suffix);
    Cat(BigEndian(f.msgType, 2), r3, suffix);
    Cat(BigEndian(f.version, 2), r2, suffix);
    Cat(BigEndian(f.magic, 4), BigEndian(f.version, 2) + r2, suffix);
  }

  /** Decoding undoes encoding, whatever bytes follow, exactly for the truthful messages: ids
      of at most 255 bytes, a defined priority, and the real payload size in the header. */
  lemma RoundTrip(m: Message, suffix: Bytes)
    ensures Deserialized(Serialized(m) + suffix) == Some(m) <==> Truthful(m)
  {
    EncodedAppend(m.header, m.payload, suffix);
    if Truthful(m) {
      DecodeEncoded(m.header, m.payload, suffix);
    } else if Deserialized(Serialized(m) + suffix) == Some(m) {
      var priority, ignored := DecodedWasEncoded(Serialized(m) + suffix);
      assert false;
    }
  }

  lemma {:induction false} EncodedLength(h: Header, rest: Bytes)
    ensures |Encoded(h, rest)| == 31 + |h.source| + |h.dest| + |rest|
  {
  }

  /** Bytes appended to what decodes change nothing, and what decodes is no shorter than the
      encoding of what it decodes to. */
  lemma ExtensionDecodesAlike(d: Bytes, t: Bytes)
    requires Deserialized(d).Some?
    ensures Deserialized(d + t) == Deserialized(d)
    ensures |d| >= |Serialized(Deserialized(d).value)|
  {
    var m := Deserialized(d).value;
    var priority, suffix := DecodedWasEncoded(d);
    var h := m.header.(priority := priority);
    EncodedLength(h, m.payload + suffix);
    EncodedLength(m.header, m.payload);
    EncodedAppend(h, m.payload + suffix, t);
    Cat(m.payload, suffix, t);
    DecodeEncoded(h, m.payload, suffix + t);
  }

  /** No strict prefix of a truthful message decodes to anything. */
  lemma StrictPrefixRejected(m: Message, n: nat)
    requires Truthful(m) && n < |Serialized(m)|
    ensures Deserialized(Serialized(m)[..n]) == None
  {
    var d := Serialized(m);
    if Deserialized(d[..n]).Some? {
      ExtensionDecodesAlike(d[..n], d[n..]);
      assert d[..n] + d[n..] == d + [];
      RoundTrip(m, []);
      assert false;
    }
  }

  /** Where the priority byte stands in the encoding of a header. */
  function PriorityOffset(h: Header): nat {
    22 + |h.source| + |h.dest|
  }

  lemma PriorityAt(h: Header, rest: Bytes)
    ensures |Encoded(h, rest)| > PriorityOffset(h) && Encoded(h, rest)[PriorityOffset(h)] == h.priority
  {
    EncodedLength(h, rest);
    var tail := Tail(h, rest);
    assert tail[1 + |h.dest|] == h.priority;
    var strings := [|h.source| % 0x100] + (h.source + tail);
    assert strings[1 + |h.source| + 1 + |h.dest|] == tail[1 + |h.dest|];
    FrontAt(FixedOf(h), strings, 1 + |h.source| + 1 + |h.dest|);
    assert Encoded(h, rest) == Front(FixedOf(h), strings);
  }

  lemma FrontAt(f: Fixed, rest: Bytes, i: nat)
    requires i < |rest|
    ensures |Front(f, rest)| == 20 + |rest| && Front(f, rest)[20 + i] == rest[i]
  {
  }

  /** Encoding undoes decoding, up to ignored bytes behind the payload, exactly when the
      priority byte was a defined one; any other byte decodes to NORMAL. */
  lemma ReencodingIsPrefix(d: Bytes)
    requires Deserialized(d).Some?
    ensures var m := Deserialized(d).value;
      && |d| > PriorityOffset(m.header)
      && (Serialized(m) <= d <==> EMERGENCY <= d[PriorityOffset(m.header)] <= LOW)
  {
    var m := Deserialized(d).value;
    var priority, suffix := DecodedWasEncoded(d);
    PriorityAt(m.header.(priority := priority), m.payload + suffix);
    PriorityAt(m.header, m.payload);
    if EMERGENCY <= priority <= LOW {
      EncodedAppend(m.header, m.payload, suffix);
    }
  }

  lemma NumberFirst(v: nat, n: nat, rest: Bytes)
    requires v < Power(n)
    ensures var d := BigEndian(v, n) + rest; FromBigEndian(d[0..n]) == v && d[n..] == rest
  {
    BigEndianInverse(v, n);
    assert (BigEndian(v, n) + rest)[0..n] == BigEndian(v, n);
  }

  lemma Deeper(d: Bytes, k: nat, i: nat, j: nat)
    requires k <= |d| && i <= j <= |d| - k
    ensures d[k..][i..j] == d[k + i..k + j] && d[k..][j..] == d[k + j..]
  {
  }

  lemma FixedLayout(f: Fixed, rest: Bytes)
    ensures var d := Front(f, rest);
      && |d| == 20 + |rest| && d[20..] == rest
      && FromBigEndian(d[0..4]) == f.magic && FromBigEndian(d[4..6]) == f.version
      && FromBigEndian(d[6..8]) == f.msgType && FromBigEndian(d[8..12]) == f.sequenceId
      && FromBigEndian(d[12..20]) == f.timestamp
  {
    Powers();
    var d5 := BigEndian(f.timestamp, 8) + rest;
    var d4 := BigEndian(f.sequenceId, 4) + d5;
    var d3 := BigEndian(f.msgType, 2) + d4;
    var d2 := BigEndian(f.version, 2) + d3;
    var d := BigEndian(f.magic, 4) + d2;
    NumberFirst(f.timestamp, 8, rest);
    NumberFirst(f.sequenceId, 4, d5);
    NumberFirst(f.msgType, 2, d4);
    NumberFirst(f.version, 2, d3);
    NumberFirst(f.magic, 4, d2);
    Deeper(d, 4, 0, 2);
    Deeper(d, 6, 0, 2);
    Deeper(d, 8, 0, 4);
    Deeper(d, 12, 0, 8);
  }

  lemma TailLayout(h: Header, payload: Bytes)
    ensures var d, n := Tail(h, payload), |h.dest|;
      && |d| == 10 + n + |payload| && Wide(d[0]) == n % 0x100 && d[1..1 + n] == h.dest && d[1 + n] == h.priority
      && FromBigEndian(d[2 + n..6 + n]) == h.payloadSize && FromBigEndian(d[6 + n..10 + n]) == h.checksum
      && d[10 + n..] == payload
  {
    Powers();
    var n := |h.dest|;
    var d2 := BigEndian(h.checksum, 4) + payload;
    var d1 := BigEndian(h.payloadSize, 4) + d2;
    var d := [n % 0x100] + (h.dest + ([h.priority] + d1));
    NumberFirst(h.checksum, 4, payload);
    NumberFirst(h.payloadSize, 4, d2);
    assert d[2 + n..] == d1;
    Deeper(d, 2 + n, 0, 4);
    Deeper(d, 6 + n, 0, 4);
  }

  /** The bytes of a serialized message, field by field: numbers with their most significant byte
      first, the source behind its length. */
  lemma WireLayout(m: Message)
    ensures var d, h := Serialized(m), m.header;
      && |d| == 31 + |h.source| + |h.dest| + |m.payload|
      && FromBigEndian(d[0..4]) == h.magic && FromBigEndian(d[4..6]) == h.version
      && FromBigEndian(d[6..8]) == h.msgType && FromBigEndian(d[8..12]) == h.sequenceId
      && FromBigEndian(d[12..20]) == h.timestamp
      && Wide(d[20]) == |h.source| % 0x100 && d[21..21 + |h.source|] == h.source
      && d[21 + |h.source|..] == Tail(h, m.payload)
  {
    var h, tail := m.header, Tail(m.header, m.payload);
    var rest := [|h.source| % 0x100] + (h.source + tail);
    EncodedLength(h, m.payload);
    FixedLayout(FixedOf(h), rest);
    assert Serialized(m) == Front(FixedOf(h), rest);
    SourceLayout(Serialized(m), h.source, tail);
  }

  lemma SourceLayout(d: Bytes, source: Bytes, tail: Bytes)
    requires |d| >= 20 && d[20..] == [|source| % 0x100] + (source + tail)
    ensures Wide(d[20]) == |source| % 0x100 && d[21..21 + |source|] == source && d[21 + |source|..] == tail
  {
    var rest := [|source| % 0x100] + (source + tail);
    assert rest[1..1 + |source|] == source && rest[1 + |source|..] == tail && rest[0..1] == [|source| % 0x100];
    Deeper(d, 20, 0, 1);
    Deeper(d, 20, 1, 1 + |source|);
    assert d[20] == d[20..21][0];
  }

  /** And behind the source: the destination behind its length, the priority, the payload's size, the
      checksum and the payload. */
  lemma WireLayoutBehindSource(m: Message)
    ensures var d, h := Serialized(m), m.header;
      var s, n := 21 + |h.source|, |h.dest|;
      && |d| == s + 10 + n + |m.payload|
      && Wide(d[s]) == n % 0x100 && d[s + 1..s + 1 + n] == h.dest && d[s + 1 + n] == h.priority
      && FromBigEndian(d[s + 2 + n..s + 6 + n]) == h.payloadSize
      && FromBigEndian(d[s + 6 + n..s + 10 + n]) == h.checksum && d[s + 10 + n..] == m.payload
  {
    WireLayout(m);
    BehindSource(Serialized(m), 21 + |m.header.source|, m.header, m.payload);
  }

  lemma BehindSource(d: Bytes, s: nat, h: Header, payload: Bytes)
    requires s <= |d| && d[s..] == Tail(h, payload)
    ensures var n := |h.dest|;
      && |d| == s + 10 + n + |payload|
      && Wide(d[s]) == n % 0x100 && d[s + 1..s + 1 + n] == h.dest && d[s + 1 + n] == h.priority
      && FromBigEndian(d[s + 2 + n..s + 6 + n]) == h.payloadSize
      && FromBigEndian(d[s + 6 + n..s + 10 + n]) == h.checksum && d[s + 10 + n..] == payload
  {
    TailLayout(h, payload);
    TailAt(d, Tail(h, payload), s, |h.dest|);
  }

  lemma TailAt(d: Bytes, tail: Bytes, s: nat, n: nat)
    requires s <= |d| && d[s..] == tail && |tail| >= 10 + n
    ensures d[s] == tail[0] && d[s + 1..s + 1 + n] == tail[1..1 + n] && d[s + 1 + n] == tail[1 + n]
    ensures d[s + 2 + n..s + 6 + n] == tail[2 + n..6 + n] && d[s + 6 + n..s + 10 + n] == tail[6 + n..10 + n]
    ensures d[s + 10 + n..] == tail[10 + n..]
  {
    Deeper(d, s, 1, 1 + n);
    Deeper(d, s, 2 + n, 6 + n);
    Deeper(d, s, 6 + n, 10 + n);
  }

  // ----- stamping in sendMessage -----

  /** The outgoing copy `sendMessage` makes for a non-empty target. */
  function Stamped(self: Bytes, target: Bytes, m: Message, now: uint64, sequence: uint32): Message {
    var h := m.header;
    Message(h.(magic := MAGIC_NUMBER, version := PROTOCOL_VERSION, dest := target,
               source := if h.source == [] then self else h.source,
               priority := Normalized(h.priority),
               timestamp := if h.timestamp == 0 then now else h.timestamp,
               sequenceId := if h.sequenceId == 0 then sequence else h.sequenceId,
               payloadSize := |m.payload| % 0x1_0000_0000,
               checksum := 0), m.payload)
  }

  /** Stamping makes every message truthful, except for ids and payloads too long to encode. */
  lemma StampedIsTruthful(self: Bytes, target: Bytes, m: Message, now: uint64, sequence: uint32)
    ensures var out := Stamped(self, target, m, now, sequence);
      Truthful(out) <==> |out.header.source| < 0x100 && |target| < 0x100 && |m.payload| < 0x1_0000_0000
  {
  }

  /** What `sendMessage` fills in: an empty source, a zero timestamp and a zero sequence number, and
      a priority that is not defined; the target, the format's magic number and version, the size
      and the checksum always. Everything else is the caller's. */
  lemma StampedFields(self: Bytes, target: Bytes, m: Message, now: uint64, sequence: uint32)
    ensures var out, h := Stamped(self, target, m, now, sequence).header, m.header;
      && out.magic == 0x53415443 && out.version == 0x0100 && out.dest == target && out.checksum == 0
      && (h.source != [] ==> out.source == h.source) && (h.source == [] ==> out.source == self)
      && (h.timestamp != 0 ==> out.timestamp == h.timestamp) && (h.timestamp == 0 ==> out.timestamp == now)
      && (h.sequenceId != 0 ==> out.sequenceId == h.sequenceId) && (h.sequenceId == 0 ==> out.sequenceId == sequence)
      && (1 <= h.priority <= 4 ==> out.priority == h.priority)
      && (h.priority == 0 || h.priority > 4 ==> out.priority == 3)
      && out.msgType == h.msgType && Stamped(self, target, m, now, sequence).payload == m.payload
      && (|m.payload| < 0x1_0000_0000 ==> out.payloadSize == |m.payload|)
  {
  }

  // ----- the routines with their cursor -----

  method ReadUint16BE(data: Bytes, pos: nat) returns (ok: bool, out: uint16, next: nat)
    requires pos <= |data|
    ensures pos <= next <= |data|
    ensures ReadNumber(data[pos..], 2) == if ok then Some((out, data[next..])) else None
  {
    out, next := 0, pos;
    if pos + 2 > |data| {
      return false, out, next;
    }
    out := Wide(data[pos]) * 0x100 + Wide(data[pos + 1]);
    next := pos + 2;
    ok := true;
    TwoBytes(data[pos..][..2]);
  }

  method ReadUint32BE(data: Bytes, pos: nat) returns (ok: bool, out: uint32, next: nat)
    requires pos <= |data|
    ensures pos <= next <= |data|
    ensures ReadNumber(data[pos..], 4) == if ok then Some((out, data[next..])) else None
  {
    out, next := 0, pos;
    if pos + 4 > |data| {
      return false, out, next;
    }
    out := Wide(data[pos]) * 0x100_0000 + Wide(data[pos + 1]) * 0x1_0000 + Wide(data[pos + 2]) * 0x100 +
      Wide(data[pos + 3]);
    next := pos + 4;
    ok := true;
    FourBytes(data[pos..][..4]);
  }

  method ReadUint64BE(data: Bytes, pos: nat) returns (ok: bool, out: uint64, next: nat)
    requires pos <= |data|
    ensures pos <= next <= |data|
    ensures ReadNumber(data[pos..], 8) == if ok then Some((out, data[next..])) else None
  {
    out, next := 0, pos;
    if pos + 8 > |data| {
      return false, out, next;
    }
    out := Wide(data[pos]) * 0x100_0000_0000_0000 + Wide(data[pos + 1]) * 0x1_0000_0000_0000 +
           Wide(data[pos + 2]) * 0x100_0000_0000 + Wide(data[pos + 3]) * 0x1_0000_0000 +
           Wide(data[pos + 4]) * 0x100_0000 + Wide(data[pos + 5]) * 0x1_0000 + Wide(data[pos + 6]) * 0x100 +
             Wide(data[pos + 7]);
    next := pos + 8;
    ok := true;
    EightBytes(data[pos..][..8]);
  }

  lemma FromBigEndianStep(d: Bytes, b: byte)
    ensures FromBigEndian(d + [b]) == FromBigEndian(d) * 0x100 + Wide(b)
  {
    assert (d + [b])[..|d|] == d;
  }

  lemma TwoBytes(d: Bytes)
    requires |d| == 2
    ensures FromBigEndian(d) == Wide(d[0]) * 0x100 + Wide(d[1])
  {
    FromBigEndianStep([], d[0]);
    FromBigEndianStep([d[0]], d[1]);
    assert [] + [d[0]] == [d[0]] && d == [d[0]] + [d[1]];
  }

  lemma FourBytes(d: Bytes)
    requires |d| == 4
    ensures FromBigEndian(d) == Wide(d[0]) * 0x100_0000 + Wide(d[1]) * 0x1_0000 + Wide(d[2]) * 0x100 + Wide(d[3])
  {
    FromBigEndianStep([], d[0]);
    FromBigEndianStep([d[0]], d[1]);
    FromBigEndianStep([d[0], d[1]], d[2]);
    FromBigEndianStep([d[0], d[1], d[2]], d[3]);
    assert [] + [d[0]] == [d[0]] && [d[0]] + [d[1]] == [d[0], d[1]] && [d[0], d[1]] + [d[2]] == [d[0], d[1], d[2]];
    assert d == [d[0], d[1], d[2]] + [d[3]];
  }

  lemma EightBytes(d: Bytes)
    requires |d| == 8
    ensures FromBigEndian(d) ==
            Wide(d[0]) * 0x100_0000_0000_0000 + Wide(d[1]) * 0x1_0000_0000_0000 + Wide(d[2]) * 0x100_0000_0000 +
              Wide(d[3]) * 0x1_0000_0000 +
            Wide(d[4]) * 0x100_0000 + Wide(d[5]) * 0x1_0000 + Wide(d[6]) * 0x100 + Wide(d[7])
  {
    FourBytes(d[..4]);
    FromBigEndianStep(d[..4], d[4]);
    FromBigEndianStep(d[..5], d[5]);
    FromBigEndianStep(d[..6], d[6]);
    FromBigEndianStep(d[..7], d[7]);
    assert d[..5] == d[..4] + [d[4]] && d[..6] == d[..5] + [d[5]] && d[..7] == d[..6] + [d[6]] && d == d[..7] + [d[7]];
  }

  /** One length byte and that many characters. */
  method ReadLengthAndString(data: Bytes, pos: nat) returns (ok: bool, out: Bytes, next: nat)
    requires pos <= |data|
    ensures pos <= next <= |data|
    ensures ReadString(data[pos..]) == if ok then Some((out, data[next..])) else None
  {
    out, next := [], pos;
    if pos >= |data| {
      return false, out, next;
    }
    var length := Wide(data[pos]);
    if pos + 1 + length > |data| {
      return false, out, next;
    }
    next := pos + 1 + length;
    out := data[pos + 1..next];
    ok := true;
    assert data[pos..][1..1 + length] == out && data[pos..][1 + length..] == data[next..];
  }

  method ReadFixedFields(data: Bytes) returns (r: Option<Fixed>, next: nat)
    ensures next <= |data|
    ensures ReadFixed(data) == if r.Some? then Some((r.value, data[next..])) else None
  {
    assert data[0..] == data;
    var ok, magic, pos := ReadUint32BE(data, 0);
    next := pos;
    if !ok {
      return None, next;
    }
    var version, msgType, sequenceId, timestamp;
    ok, version, next := ReadUint16BE(data, next);
    if !ok {
      return None, next;
    }
    ok, msgType, next := ReadUint16BE(data, next);
    if !ok {
      return None, next;
    }
    ok, sequenceId, next := ReadUint32BE(data, next);
    if !ok {
      return None, next;
    }
    ok, timestamp, next := ReadUint64BE(data, next);
    if !ok {
      return None, next;
    }
    r := Some(Fixed(magic, version, msgType, sequenceId, timestamp));
  }

  method DeserializeMessage(data: Bytes) returns (r: Option<Message>)
    ensures r == Deserialized(data)
  {
    var fixed, pos := ReadFixedFields(data);
    if fixed.None? {
      return None;
    }
    var ok, source, dest, payloadSize, checksum;
    ok, source, pos := ReadLengthAndString(data, pos);
    if !ok {
      return None;
    }
    ok, dest, pos := ReadLengthAndString(data, pos);
    if !ok {
      return None;
    }
    if pos >= |data| {
      return None;
    }
    var priority := data[pos];
    Slices(data, pos, 1);
    pos := pos + 1;
    ok, payloadSize, pos := ReadUint32BE(data, pos);
    if !ok {
      return None;
    }
    ok, checksum, pos := ReadUint32BE(data, pos);
    if !ok {
      return None;
    }
    if payloadSize > |data| - pos {
      return None;
    }
    var f := fixed.value;
    var header := Header(f.magic, f.version, f.msgType, f.sequenceId, f.timestamp, source, dest,
                         if priority < EMERGENCY || priority > LOW then NORMAL else priority, payloadSize, checksum);
    Slices(data, pos, payloadSize);
    r := Some(Message(header, data[pos..pos + payloadSize]));
  }

  lemma Bytes2(v: uint16)
    ensures BigEndian(v, 2) == [v / 0x100 % 0x100, v % 0x100]
  {
    assert BigEndian(v / 0x100, 1) == [v / 0x100 % 0x100];
  }

  lemma Bytes4(v: uint32)
    ensures BigEndian(v, 4) == [v / 0x100_0000 % 0x100, v / 0x1_0000 % 0x100, v / 0x100 % 0x100, v % 0x100]
  {
    Bytes2(v / 0x1_0000);
    assert v / 0x1_0000 == v / 0x100 / 0x100 && v / 0x100_0000 == v / 0x1_0000 / 0x100;
    assert BigEndian(v / 0x100, 3) == BigEndian(v / 0x100 / 0x100, 2) + [v / 0x100 % 0x100];
  }

  lemma Bytes8(v: uint64)
    ensures BigEndian(v, 8) ==
            [v / 0x100_0000_0000_0000 % 0x100, v / 0x1_0000_0000_0000 % 0x100, v / 0x100_0000_0000 % 0x100,
             v / 0x1_0000_0000 % 0x100, v / 0x100_0000 % 0x100, v / 0x1_0000 % 0x100, v / 0x100 % 0x100, v % 0x100]
  {
    var v1 := v / 0x100;
    var v2 := v1 / 0x100;
    var v3 := v2 / 0x100;
    var v4 := v3 / 0x100;
    assert v2 == v / 0x1_0000 && v3 == v / 0x100_0000 && v4 == v / 0x1_0000_0000;
    Bytes4(v4);
    assert BigEndian(v3, 5) == BigEndian(v4, 4) + [v3 % 0x100];
    assert BigEndian(v2, 6) == BigEndian(v3, 5) + [v2 % 0x100];
    assert BigEndian(v1, 7) == BigEndian(v2, 6) + [v1 % 0x100];
    assert v4 / 0x100 == v / 0x100_0000_0000 && v4 / 0x1_0000 == v / 0x1_0000_0000_0000;
    assert v4 / 0x100_0000 == v / 0x100_0000_0000_0000;
  }

  /** `serializeHeaderLocal` and `MessageSerializer::serialize`: bytes pushed one by one. */
  method Serialize(m: Message) returns (data: Bytes)
    ensures data == Serialized(m)
  {
    var h := m.header;
    var front := SerializeFixed(h);
    data := front + [|h.source| % 0x100] + h.source + [|h.dest| % 0x100] + h.dest + [h.priority];
    var v := h.payloadSize;
    data := data + [v / 0x100_0000 % 0x100, v / 0x1_0000 % 0x100, v / 0x100 % 0x100, v % 0x100];
    v := h.checksum;
    data := data + [v / 0x100_0000 % 0x100, v / 0x1_0000 % 0x100, v / 0x100 % 0x100, v % 0x100];
    data := data + m.payload;
    Bytes4(h.payloadSize);
    Bytes4(h.checksum);
    SerializedParts(m, front);
  }

  method SerializeFixed(h: Header) returns (data: Bytes)
    ensures data == Front(FixedOf(h), [])
  {
    var v := h.magic;
    data := [v / 0x100_0000 % 0x100, v / 0x1_0000 % 0x100, v / 0x100 % 0x100, v % 0x100];
    data := data + [h.version / 0x100 % 0x100, h.version % 0x100];
    data := data + [h.msgType / 0x100 % 0x100, h.msgType % 0x100];
    v := h.sequenceId;
    data := data + [v / 0x100_0000 % 0x100, v / 0x1_0000 % 0x100, v / 0x100 % 0x100, v % 0x100];
    var t := h.timestamp;
    data := data + [t / 0x100_0000_0000_0000 % 0x100, t / 0x1_0000_0000_0000 % 0x100, t / 0x100_0000_0000 % 0x100,
                    t / 0x1_0000_0000 % 0x100, t / 0x100_0000 % 0x100, t / 0x1_0000 % 0x100,
                    t / 0x100 % 0x100, t % 0x100];
    Bytes4(h.magic);
    Bytes2(h.version);
    Bytes2(h.msgType);
    Bytes4(h.sequenceId);
    Bytes8(h.timestamp);
    FrontPieces(BigEndian(h.magic, 4), BigEndian(h.version, 2), BigEndian(h.msgType, 2),
                BigEndian(h.sequenceId, 4), BigEndian(h.timestamp, 8));
  }

  lemma FrontPieces(a: Bytes, b: Bytes, c: Bytes, d: Bytes, e: Bytes)
    ensures a + b + c + d + e == a + (b + (c + (d + (e + []))))
  {
    Cat(a + b + c, d, e);
    Cat(a + b, c, d + e);
    Cat(a, b, c + (d + e));
    assert e + [] == e;
  }

  lemma SerializedParts(m: Message, front: Bytes)
    requires front == Front(FixedOf(m.header), [])
    ensures var h := m.header;
      front + [|h.source| % 0x100] + h.source + [|h.dest| % 0x100] + h.dest + [h.priority] +
      BigEndian(h.payloadSize, 4) + BigEndian(h.checksum, 4) + m.payload == Serialized(m)
  {
    var h := m.header;
    var a, b := front + [|h.source| % 0x100] + h.source, [|h.dest| % 0x100];
    var s, k := BigEndian(h.payloadSize, 4), BigEndian(h.checksum, 4);
    Cat(a + b + h.dest + [h.priority] + s, k, m.payload);
    Cat(a + b + h.dest + [h.priority], s, k + m.payload);
    Cat(a + b + h.dest, [h.priority], s + (k + m.payload));
    Cat(a + b, h.dest, [h.priority] + (s + (k + m.payload)));
    Cat(a, b, h.dest + ([h.priority] + (s + (k + m.payload))));
    var tail := Tail(h, m.payload);
    Cat(front + [|h.source| % 0x100], h.source, tail);
    Cat(front, [|h.source| % 0x100], h.source + tail);
    FrontAppend(FixedOf(h), [], [|h.source| % 0x100] + (h.source + tail));
    assert [] + ([|h.source| % 0x100] + (h.source + tail)) == [|h.source| % 0x100] + (h.source + tail);
  }
}
