/** MQTT 3.1.1 framing over a fragmenting socket (smoke_windows_portable_release.py). */
module MqttFraming {
  import opened Wrappers
  import opened Bytes

  /** `ConnectionError` from a closed peer, `ValueError` from an over-long length. */
  datatype ReadError = Closed | InvalidLength

  datatype Packet = Packet(kind: byte, payload: bytes)

  const MAX_REMAINING := 268_435_455

  // ---- The format, independent of any socket ----

  /** Section 2.2.3 of MQTT 3.1.1: seven bits a byte, low group first, high bit while more follow. */
  function RemainingLength(size: nat): (r: bytes)
    ensures |r| >= 1
  {
    if size < 128 then [size] else [size % 128 + 128] + RemainingLength(size / 128)
  }

  function Encode(p: Packet): bytes {
    [p.kind] + RemainingLength(|p.payload|) + p.payload
  }

  function EncodeAll(packets: seq<Packet>): bytes {
    if packets == [] then [] else Encode(packets[0]) + EncodeAll(packets[1..])
  }

  /** The stream after a length prefix of at most `digits` more bytes, with the length it announces. */
  function DecodeLength(stream: bytes, digits: nat): Result<(nat, bytes), ReadError> {
    if digits == 0 then Failure(InvalidLength)
    else if stream == [] then Failure(Closed)
    else if stream[0] < 128 then Success((stream[0], stream[1..]))
    else
      var rest :- DecodeLength(stream[1..], digits - 1);
      Success((stream[0] - 128 + 128 * rest.0, rest.1))
  }

  /** What one `_read_packet` yields from a byte stream, and what it leaves unread. */
  function Decode(stream: bytes): Result<(Packet, bytes), ReadError> {
    if stream == [] then Failure(Closed)
    else
      var (size, rest) :- DecodeLength(stream[1..], 4);
      if size > |rest| then Failure(Closed)
      else Success((Packet(stream[0], rest[..size]), rest[size..]))
  }

  // ---- The socket ----

  /** A connected socket: `pending` is everything the peer will still deliver before closing. */
  class Connection {
    var pending: bytes

    constructor (stream: bytes)
      ensures pending == stream
    {
      pending := stream;
    }

    /** `socket.recv`: any nonempty prefix up to `size`, or nothing once the peer has closed. */
    method Recv(size: nat) returns (chunk: bytes)
      requires size > 0
      modifies this
      ensures old(pending) == chunk + pending && |chunk| <= size
      ensures chunk == [] <==> old(pending) == []
    {
      if pending == [] {
        return [];
      }
      var n: nat :| 0 < n <= size && n <= |pending|;
      chunk := pending[..n];
      pending := pending[n..];
    }

    method RecvExact(size: nat) returns (r: Result<bytes, ReadError>)
      modifies this
      ensures size <= |old(pending)| ==> r == Success(old(pending)[..size]) && pending == old(pending)[size..]
      ensures size > |old(pending)| ==> r == Failure(Closed) && pending == []
    {
      var chunks: bytes := [];
      while |chunks| < size
        invariant |chunks| <= size && old(pending) == chunks + pending
        decreases size - |chunks|
      {
        var chunk := Recv(size - |chunks|);
        if chunk == [] {
          return Failure(Closed);
        }
        chunks := chunks + chunk;
      }
      r := Success(chunks);
    }

    /** The length loop: at most four digits, least significant first. */
    method ReadLength() returns (r: Result<nat, ReadError>)
      modifies this
      ensures var decoded := DecodeLength(old(pending), 4);
        if decoded.Success? then r == Success(decoded.value.0) && pending == decoded.value.1
        else r == Failure(decoded.error)
    {
      var multiplier: int, remaining: int := 1, 0;
      ghost var whole := DecodeLength(pending, 4);
      for i := 0 to 4
        invariant multiplier > 0 && remaining >= 0
        invariant whole == Scaled(remaining, multiplier, DecodeLength(pending, 4 - i))
      {
        ghost var stream := pending;
        var next := RecvExact(1);
        if next.Failure? {
          return Failure(next.error);
        }
        var digit: int := next.value[0];
        ScaledDigit(remaining, multiplier, stream, 4 - i);
        remaining := remaining + digit % 128 * multiplier;
        if digit < 128 {
          return Success(remaining);
        }
        multiplier := multiplier * 128;
      }
      r := Failure(InvalidLength);
    }

    /** `_read_packet` agrees with `Decode` under every fragmentation of the stream. */
    method ReadPacket() returns (r: Result<Packet, ReadError>)
      modifies this
      ensures var decoded := Decode(old(pending));
        if decoded.Success? then r == Success(decoded.value.0) && pending == decoded.value.1
        else r == Failure(decoded.error)
    {
      var first := RecvExact(1);
      if first.Failure? {
        return Failure(first.error);
      }
      var size := ReadLength();
      if size.Failure? {
        return Failure(size.error);
      }
      var payload := RecvExact(size.value);
      if payload.Failure? {
        return Failure(payload.error);
      }
      r := Success(Packet(first.value[0], payload.value));
    }
  }

  /** A decoded tail weighed into the digits already read. */
  ghost function Scaled(remaining: nat, multiplier: nat, tail: Result<(nat, bytes), ReadError>)
    : Result<(nat, bytes), ReadError>
  {
    if tail.Failure? then tail else Success((remaining + multiplier * tail.value.0, tail.value.1))
  }

  lemma ScaledDigit(remaining: nat, multiplier: nat, stream: bytes, digits: nat)
    requires stream != [] && digits > 0
    ensures var d := stream[0] % 128;
      Scaled(remaining, multiplier, DecodeLength(stream, digits))
      == if stream[0] < 128 then Success((remaining + d * multiplier, stream[1..]))
         else Scaled(remaining + d * multiplier, multiplier * 128, DecodeLength(stream[1..], digits - 1))
  {
    var tail := DecodeLength(stream[1..], digits - 1);
    if stream[0] >= 128 && tail.Success? {
      Weighed(multiplier, stream[0] - 128, tail.value.0);
    }
  }

  lemma Weighed(multiplier: int, low: int, high: int)
    ensures multiplier * (low + 128 * high) == low * multiplier + multiplier * 128 * high
  {
  }

  // ---- Round trip ----

  function Power128(i: nat): (r: nat)
    ensures r > 0
  {
    if i == 0 then 1 else 128 * Power128(i - 1)
  }

  /** A length is recovered within its digit budget and refused just past it. */
  lemma {:induction false} LengthRoundTrip(size: nat, rest: bytes, digits: nat)
    requires digits > 0
    ensures DecodeLength(RemainingLength(size) + rest, digits)
         == if size < Power128(digits) then Success((size, rest)) else Failure(InvalidLength)
    decreases digits
  {
    var r := RemainingLength(size);
    if size < 128 {
      assert (r + rest)[1..] == rest;
      assert Power128(digits) >= 128;
    } else {
      var tail := RemainingLength(size / 128);
      assert (r + rest)[0] == size % 128 + 128;
      assert (r + rest)[1..] == tail + rest;
      if digits == 1 {
        assert Power128(1) == 128 * Power128(0);
      } else {
        LengthRoundTrip(size / 128, rest, digits - 1);
        assert size == 128 * (size / 128) + size % 128;
        assert size < Power128(digits) <==> size / 128 < Power128(digits - 1);
      }
    }
  }

  /** One packet: recovered exactly up to the protocol's limit, and always refused beyond it. */
  lemma PacketRoundTrip(p: Packet, rest: bytes)
    ensures Decode(Encode(p) + rest)
         == if |p.payload| <= MAX_REMAINING then Success((p, rest)) else Failure(InvalidLength)
  {
    var stream := Encode(p) + rest;
    assert stream[0] == p.kind;
    assert stream[1..] == RemainingLength(|p.payload|) + (p.payload + rest);
    LengthRoundTrip(|p.payload|, p.payload + rest, 4);
    assert Power128(4) == MAX_REMAINING + 1 by {
      assert Power128(1) == 128 && Power128(2) == 16_384 && Power128(3) == 2_097_152;
    }
    assert (p.payload + rest)[..|p.payload|] == p.payload && (p.payload + rest)[|p.payload|..] == rest;
  }

  /** `_send_packet`, onto a connection whose other end will read `pending`. */
  method SendPacket(connection: Connection, kind: byte, payload: bytes)
    modifies connection
    ensures connection.pending == old(connection.pending) + Encode(Packet(kind, payload))
  {
    var length := EncodeLength(|payload|);
    connection.pending := connection.pending + ([kind] + length + payload);
  }

  /** The loop of `_remaining_length`. */
  method EncodeLength(size: nat) returns (encoded: bytes)
    ensures encoded == RemainingLength(size)
  {
    encoded := [];
    var left := size;
    while true
      invariant encoded + RemainingLength(left) == RemainingLength(size)
      decreases left
    {
      var digit := left % 128;
      var next := left / 128;
      if next == 0 {
        return encoded + [digit];
      }
      assert encoded + RemainingLength(left) == encoded + [digit + 128] + RemainingLength(next);
      encoded := encoded + [digit + 128];
      left := next;
    }
  }

  /** Repeated `_read_packet` calls, as the broker loop makes them, return the packets sent and nothing else. */
  method ReceiveAll(connection: Connection, ghost sent: seq<Packet>, ghost rest: bytes, count: nat)
    returns (received: seq<Packet>)
    requires count == |sent| && connection.pending == EncodeAll(sent) + rest
    requires forall i :: 0 <= i < |sent| ==> |sent[i].payload| <= MAX_REMAINING
    modifies connection
    ensures received == sent && connection.pending == rest
  {
    received := [];
    for i := 0 to count
      invariant received == sent[..i]
      invariant connection.pending == EncodeAll(sent[i..]) + rest
    {
      assert sent[i..][1..] == sent[i + 1..];
      assert connection.pending == Encode(sent[i]) + (EncodeAll(sent[i + 1..]) + rest);
      PacketRoundTrip(sent[i], EncodeAll(sent[i + 1..]) + rest);
      var next := connection.ReadPacket();
      received := received + [next.value];
    }
    assert sent[count..] == [];
  }

  // ---- SUBSCRIBE payloads: section 3.8.3 of MQTT 3.1.1 ----

  datatype FilterError = TruncatedTopicLength | TruncatedSubscription

  datatype Filter = Filter(topic: bytes, qos: byte)

  function EncodeFilter(f: Filter): bytes
    requires |f.topic| < 65_536
  {
    [|f.topic| / 256, |f.topic| % 256] + f.topic + [f.qos]
  }

  function EncodeFilters(filters: seq<Filter>): bytes
    requires forall i :: 0 <= i < |filters| ==> |filters[i].topic| < 65_536
  {
    if filters == [] then [] else EncodeFilter(filters[0]) + EncodeFilters(filters[1..])
  }

  function TopicLength(high: int, low: int): int {
    high * 256 + low
  }

  /** How long the filter at the front of a body is, or why none can be read. */
  function FilterSize(body: bytes): (r: Result<nat, FilterError>)
    requires body != []
    ensures r.Success? ==> 3 <= r.value <= |body|
  {
    if |body| < 2 then Failure(TruncatedTopicLength)
    else
      var length := TopicLength(body[0], body[1]);
      if 2 + length >= |body| then Failure(TruncatedSubscription) else Success(3 + length)
  }

  function Plus(count: nat, rest: Result<nat, FilterError>): Result<nat, FilterError> {
    if rest.Failure? then rest else Success(count + rest.value)
  }

  /** How many filters a byte string parses into. */
  function CountFilters(body: bytes): Result<nat, FilterError> {
    if body == [] then Success(0)
    else
      var size := FilterSize(body);
      if size.Failure? then Failure(size.error) else Plus(1, CountFilters(body[size.value..]))
  }

  /** What is left of a payload at a position that may lie past its end. */
  function From(payload: bytes, position: nat): bytes {
    if |payload| < position then [] else payload[position..]
  }

  /** Where the filter at a position ends, or why none can be read. */
  function FilterEnd(payload: bytes, position: nat): (r: Result<nat, FilterError>)
    requires position < |payload|
    ensures r.Success? ==> position < r.value <= |payload|
  {
    if position + 2 > |payload| then Failure(TruncatedTopicLength)
    else
      var next := position + 2 + TopicLength(payload[position], payload[position + 1]);
      if next >= |payload| then Failure(TruncatedSubscription) else Success(next + 1)
  }

  function CountAt(payload: bytes, position: nat): Result<nat, FilterError>
    decreases |payload| - position
  {
    if position >= |payload| then Success(0)
    else
      var end := FilterEnd(payload, position);
      if end.Failure? then Failure(end.error) else Plus(1, CountAt(payload, end.value))
  }

  lemma FilterSizeAt(payload: bytes, position: nat)
    requires position < |payload|
    ensures var end, size := FilterEnd(payload, position), FilterSize(payload[position..]);
      if end.Failure? then size == Failure(end.error) else size == Success(end.value - position)
  {
  }

  /** Reading by position counts what is left of the payload there. */
  lemma {:induction false} CountAtExact(payload: bytes, position: nat)
    requires position <= |payload|
    ensures CountAt(payload, position) == CountFilters(payload[position..])
    decreases |payload| - position
  {
    if position < |payload| {
      FilterSizeAt(payload, position);
      var end := FilterEnd(payload, position);
      if end.Success? {
        assert payload[position..][end.value - position..] == payload[end.value..];
        CountAtExact(payload, end.value);
      }
    }
  }

  /** `_subscription_count`; a payload too short for its packet identifier counts as empty. */
  method SubscriptionCount(payload: bytes) returns (r: Result<nat, FilterError>)
    ensures r == CountFilters(From(payload, 2))
  {
    var position, count := 2, 0;
    if |payload| >= 2 {
      CountAtExact(payload, 2);
    }
    while position < |payload|
      invariant CountAt(payload, 2) == Plus(count, CountAt(payload, position))
      decreases |payload| - position
    {
      if position + 2 > |payload| {
        return Failure(TruncatedTopicLength);
      }
      var next := position + 2 + TopicLength(payload[position], payload[position + 1]);
      if next >= |payload| {
        return Failure(TruncatedSubscription);
      }
      position := next + 1;
      count := count + 1;
    }
    r := Success(count);
  }

  /** Encoded filters parse to their number. */
  lemma {:induction false} EncodedFiltersCount(filters: seq<Filter>)
    requires forall i :: 0 <= i < |filters| ==> |filters[i].topic| < 65_536
    ensures CountFilters(EncodeFilters(filters)) == Success(|filters|)
  {
    if filters != [] {
      var f := filters[0];
      var body := EncodeFilters(filters);
      EncodedFiltersCount(filters[1..]);
      assert TopicLength(body[0], body[1]) == |f.topic|;
      assert body[3 + |f.topic|..] == EncodeFilters(filters[1..]);
    }
  }

  /** And whatever parses is exactly the encoding of that many filters. */
  lemma {:induction false} CountedFiltersEncode(body: bytes) returns (filters: seq<Filter>)
    requires CountFilters(body).Success?
    ensures |filters| == CountFilters(body).value
    ensures forall i :: 0 <= i < |filters| ==> |filters[i].topic| < 65_536
    ensures EncodeFilters(filters) == body
  {
    if body == [] {
      filters := [];
    } else {
      var length := TopicLength(body[0], body[1]);
      var rest := CountedFiltersEncode(body[3 + length..]);
      var f := Filter(body[2..2 + length], body[2 + length]);
      filters := [f] + rest;
      assert filters[1..] == rest;
      FilterPrefix(body, length);
      assert body == body[..3 + length] + body[3 + length..];
    }
  }

  /** A filter read off the front of a body encodes to exactly that front. */
  lemma FilterPrefix(body: bytes, length: nat)
    requires 2 + length < |body| && length == TopicLength(body[0], body[1])
    ensures length < 65_536 && EncodeFilter(Filter(body[2..2 + length], body[2 + length])) == body[..3 + length]
  {
    var high: int, low: int := body[0], body[1];
    assert (high * 256 + low) / 256 == high && (high * 256 + low) % 256 == low;
  }

  ghost predicate EncodesFilters(body: bytes, filters: seq<Filter>) {
    (forall i :: 0 <= i < |filters| ==> |filters[i].topic| < 65_536) && EncodeFilters(filters) == body
  }

  /** The body counts to n exactly when it is n well-formed filters, one after another. */
  lemma FilterCountExact(body: bytes, n: nat)
    ensures CountFilters(body) == Success(n) <==> exists filters :: |filters| == n && EncodesFilters(body, filters)
  {
    if CountFilters(body).Success? {
      var filters := CountedFiltersEncode(body);
      assert EncodesFilters(body, filters);
    }
    forall filters | EncodesFilters(body, filters) ensures CountFilters(body) == Success(|filters|) {
      EncodedFiltersCount(filters);
    }
  }

  /** A payload counts to n exactly when it is two bytes of packet identifier and n well-formed filters, or is too short
    * for an identifier and n is 0. */
  lemma SubscriptionCountExact(payload: bytes, n: nat)
    ensures CountFilters(From(payload, 2)) == Success(n) <==>
      || (|payload| < 2 && n == 0)
      || (|payload| >= 2 && exists filters :: |filters| == n && EncodesFilters(payload[2..], filters))
  {
    FilterCountExact(From(payload, 2), n);
  }
}
