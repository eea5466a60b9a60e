/** Reading GDB remote protocol packets back from the socket. */
module PacketReader {
  import opened Options
  import opened ByteMemory
  import opened Packets

  const PLUS: byte := 43
  const MINUS: byte := 45

  /** What the stream has buffered, what the socket will still deliver read by read, and what was
      written to it. */
  datatype Stream = Stream(buffer: seq<byte>, incoming: seq<seq<byte>>, outgoing: seq<byte>)

  /** How a read ends: a message, an end of input, or one of the exceptions it can raise. */
  datatype Outcome = Message(data: seq<byte>) | NoData | RunLengthUnsupported | IndexError | DecodeError

  /** How the scan for the end of a message ends. */
  datatype Body = Body(message: seq<byte>, checksum: nat, position: nat) | Stopped(outcome: Outcome)

  /** Makes sure there is something at `position`: a refill replaces the whole buffer. */
  function Refill(s: Stream, position: nat): (r: Stream)
    ensures r != s ==> |r.incoming| < |s.incoming| || r.buffer == []
    ensures |r.incoming| <= |s.incoming|
  {
    if position < |s.buffer| then s
    else if s.incoming == [] then s.(buffer := [])
    else Stream(s.incoming[0], s.incoming[1..], s.outgoing)
  }

  function Remaining(s: Stream, position: nat): nat {
    if position < |s.buffer| then |s.buffer| - position else 0
  }

  function Scan(s: Stream, position: nat, checksum: nat, escaped: bool, message: seq<byte>): (r: (Stream, Body))
    ensures r.1.Body? ==> |r.0.incoming| < |s.incoming| || (r.0 == s && r.1.position > position)
    decreases |s.incoming|, Remaining(s, position)
  {
    var t := Refill(s, position);
    if t.buffer == [] then (t, Stopped(NoData))
    else if position >= |t.buffer| then (t, Stopped(IndexError))
    else
      var c := t.buffer[position];
      if escaped then Scan(t, position + 1, checksum + c, false, message + [Flip(c)])
      else if c == ESCAPE then Scan(t, position + 1, checksum + c, true, message)
      else if c == STAR then (t, Stopped(RunLengthUnsupported))
      else if c == HASH then (t, Body(message, checksum, position + 1))
      else Scan(t, position + 1, checksum + c, false, message + [c])
  }

  /** One byte of the checksum: whether it passes. */
  function CheckByte(s: Stream, position: nat, digit: nat): (r: (Stream, Option<bool>, Outcome))
    ensures r.1.Some? ==> |r.0.incoming| < |s.incoming| || r.0 == s
    ensures r.1.Some? ==> position < |r.0.buffer|
  {
    var t := Refill(s, position);
    if t.buffer == [] then (t, None, NoData)
    else if position >= |t.buffer| then (t, None, IndexError)
    else (t, Some(digit != t.buffer[position]), NoData)
  }

  /** The two bytes behind the message: whether they pass, with the stream trimmed behind them. */
  function CheckEnd(s: Stream, position: nat, checksum: nat): (r: (Stream, Option<bool>, Outcome))
    ensures r.1.Some? ==> |r.0.incoming| < |s.incoming| || (|r.0.incoming| == |s.incoming| && |r.0.buffer| < |s.buffer|)
  {
    var (t, first, outcome) := CheckByte(s, position, checksum % 256 / 16);
    if first.None? then (t, None, outcome)
    else
      var (u, second, end) := CheckByte(t, position + 1, checksum % 256 % 16);
      if second.None? then (u, None, end)
      else (u.(buffer := u.buffer[position + 2..]), Some(first.value && second.value), NoData)
  }

  function Read(s: Stream): (Stream, Outcome)
    decreases |s.incoming|, |s.buffer|
  {
    var t := Refill(s, 0);
    if t.buffer == [] then (t, NoData)
    else if t.buffer[0] == PLUS then (t.(buffer := t.buffer[1..]), Message([PLUS]))
    else if t.buffer[0] == MINUS then (t.(buffer := t.buffer[1..]), Message([MINUS]))
    else if t.buffer[0] != DOLLAR then
      if t.buffer[0] >= 128 then (t, DecodeError)
      else Read(Stream([], t.incoming, t.outgoing + [MINUS]))
    else
      var (u, body) := Scan(t, 1, 0, false, []);
      if body.Stopped? then (u, body.outcome)
      else
        var (v, passed, outcome) := CheckEnd(u, body.position, body.checksum);
        if passed.None? then (v, outcome)
        else if passed.value then (v, Message(body.message))
        else Read(v.(outgoing := v.outgoing + [MINUS]))
  }

  function WireSum(c: byte): nat {
    if IsSpecial(c) then ESCAPE + Flip(c) else c
  }

  /** Scanning one escaped byte. */
  lemma ScanReadsChar(s: Stream, position: nat, c: byte, post: seq<byte>, checksum: nat, message: seq<byte>)
    requires position <= |s.buffer| && s.buffer[position..] == EscapedChar(c) + post
    ensures s.buffer[position + |EscapedChar(c)|..] == post
    ensures Scan(s, position, checksum, false, message) ==
            Scan(s, position + |EscapedChar(c)|, checksum + WireSum(c), false, message + [c])
  {
  }

  lemma WireSumOfEscaped(c: byte, rest: seq<byte>)
    ensures Sum(EscapedChar(c) + rest) == WireSum(c) + Sum(rest)
  {
  }

  lemma EscapedTail(c: byte, rest: seq<byte>, post: seq<byte>)
    ensures Escaped([c] + rest) + post == EscapedChar(c) + (Escaped(rest) + post)
  {
  }

  /** Scanning an escaped payload collects the payload and sums up the bytes on the wire. */
  lemma {:induction false} ScanReadsEscaped(s: Stream, position: nat, payload: seq<byte>, post: seq<byte>,
      checksum: nat, message: seq<byte>)
    requires position <= |s.buffer| && s.buffer[position..] == Escaped(payload) + post && post != [] && post[0] == HASH
    ensures Scan(s, position, checksum, false, message) ==
            (s, Body(message + payload, checksum + Sum(Escaped(payload)), position + |Escaped(payload)| + 1))
    decreases |payload|
  {
    if payload == [] {
      assert message + payload == message;
      assert s.buffer[position] == s.buffer[position..][0];
    } else {
      var c, rest := payload[0], payload[1..];
      assert payload == [c] + rest;
      EscapedTail(c, rest, post);
      var next := position + |EscapedChar(c)|;
      ScanReadsChar(s, position, c, Escaped(rest) + post, checksum, message);
      WireSumOfEscaped(c, Escaped(rest));
      assert message + [c] + rest == message + payload;
      ScanReadsEscaped(s, next, rest, post, checksum + WireSum(c), message + [c]);
    }
  }

  /** A packet that arrives whole is accepted exactly when neither checksum byte, taken as it is,
      equals the value of the digit that belongs there; a rejected packet is answered and skipped. */
  lemma ReadFramed(payload: seq<byte>, c1: byte, c2: byte, rest: seq<byte>, incoming: seq<seq<byte>>,
      outgoing: seq<byte>)
    ensures Read(Stream(Framed(payload, c1, c2) + rest, incoming, outgoing)) ==
            if c1 != Checksum(payload) / 16 && c2 != Checksum(payload) % 16
            then (Stream(rest, incoming, outgoing), Message(payload))
            else Read(Stream(rest, incoming, outgoing + [MINUS]))
  {
    var s := Stream(Framed(payload, c1, c2) + rest, incoming, outgoing);
    var e, sum := Escaped(payload), Sum(Escaped(payload));
    var post := [HASH, c1, c2] + rest;
    FramedParts(e, [HASH, c1, c2], rest);
    ScanReadsEscaped(s, 1, payload, post, 0, []);
    assert [] + payload == payload;
    CheckFramed(s, e, c1, c2, rest, sum);
  }

  lemma FramedParts(e: seq<byte>, end: seq<byte>, rest: seq<byte>)
    ensures var buffer := [DOLLAR] + e + end + rest; buffer[0] == DOLLAR && buffer[1..] == e + (end + rest)
  {
  }

  lemma CheckFramed(s: Stream, e: seq<byte>, c1: byte, c2: byte, rest: seq<byte>, sum: nat)
    requires s.buffer == [DOLLAR] + e + [HASH, c1, c2] + rest
    ensures CheckEnd(s, |e| + 2, sum) ==
            (s.(buffer := rest), Some(sum % 256 / 16 != c1 && sum % 256 % 16 != c2), NoData)
  {
  }

  /** An acknowledgement is one byte. */
  lemma AcksByCharacter()
    ensures Wire(Ack(true)) == ['+' as int] && Wire(Ack(false)) == ['-' as int]
  {
  }

  /** What a peer may send: an acknowledgement or a packet. */
  datatype Item = Ack(ok: bool) | Payload(data: seq<byte>)

  function Wire(item: Item): seq<byte> {
    match item
    case Ack(ok) => [if ok then PLUS else MINUS]
    case Payload(data) => Packet(data)
  }

  function Content(item: Item): seq<byte> {
    match item
    case Ack(ok) => [if ok then PLUS else MINUS]
    case Payload(data) => data
  }

  function WireAll(items: seq<Item>): seq<byte> {
    if items == [] then [] else Wire(items[0]) + WireAll(items[1..])
  }

  function Contents(items: seq<Item>): seq<Outcome> {
    if items == [] then [] else [Message(Content(items[0]))] + Contents(items[1..])
  }

  /** The outcomes of `n` reads in a row. */
  function Reads(s: Stream, n: nat): (Stream, seq<Outcome>)
    decreases n
  {
    if n == 0 then (s, [])
    else
      var (t, outcome) := Read(s);
      var (u, outcomes) := Reads(t, n - 1);
      (u, [outcome] + outcomes)
  }

  /** One item in front of anything else is read as its content, and nothing else is touched. */
  lemma ReadsOne(item: Item, rest: seq<byte>, incoming: seq<seq<byte>>, outgoing: seq<byte>)
    ensures Read(Stream(Wire(item) + rest, incoming, outgoing)) ==
            (Stream(rest, incoming, outgoing), Message(Content(item)))
  {
    match item
    case Ack(ok) =>
      assert (Wire(item) + rest)[1..] == rest;
    case Payload(data) =>
      ReadFramed(data, HexDigit(Checksum(data) / 16), HexDigit(Checksum(data) % 16), rest, incoming, outgoing);
  }

  lemma {:induction false} ReadsAppend(s: Stream, a: nat, b: nat)
    ensures var (t, first) := Reads(s, a); var (u, second) := Reads(t, b);
            Reads(s, a + b) == (u, first + second)
    decreases a
  {
    if a > 0 {
      var (t, outcome) := Read(s);
      ReadsAppend(t, a - 1, b);
      var (u, first) := Reads(t, a - 1);
      var (v, second) := Reads(u, b);
      assert [outcome] + first + second == [outcome] + (first + second);
    } else {
      var (u, second) := Reads(s, b);
      assert [] + second == second;
    }
  }

  /** Whatever is sent in one delivery is read back item by item, with no byte left over. */
  lemma {:induction false} OneDeliveryIsReadBack(items: seq<Item>, incoming: seq<seq<byte>>, outgoing: seq<byte>)
    ensures Reads(Stream(WireAll(items), incoming, outgoing), |items|) ==
            (Stream([], incoming, outgoing), Contents(items))
    decreases |items|
  {
    if items != [] {
      ReadsOne(items[0], WireAll(items[1..]), incoming, outgoing);
      OneDeliveryIsReadBack(items[1..], incoming, outgoing);
    }
  }

  function Deliveries(batches: seq<seq<Item>>): seq<seq<byte>> {
    if batches == [] then [] else [WireAll(batches[0])] + Deliveries(batches[1..])
  }

  function Flatten(batches: seq<seq<Item>>): seq<Item> {
    if batches == [] then [] else batches[0] + Flatten(batches[1..])
  }

  lemma {:induction false} ContentsConcat(a: seq<Item>, b: seq<Item>)
    ensures Contents(a + b) == Contents(a) + Contents(b)
  {
    if a == [] {
      assert a + b == b;
    } else {
      assert (a + b)[1..] == a[1..] + b;
      ContentsConcat(a[1..], b);
    }
  }

  /** An empty buffer is refilled with the next delivery, so reading on is reading that. */
  lemma ReadRefills(delivery: seq<byte>, incoming: seq<seq<byte>>, outgoing: seq<byte>)
    requires delivery != []
    ensures Read(Stream([], [delivery] + incoming, outgoing)) == Read(Stream(delivery, incoming, outgoing))
  {
  }

  lemma WireIsNotEmpty(items: seq<Item>)
    requires items != []
    ensures WireAll(items) != []
  {
  }

  lemma NextDeliveryIsReadBack(items: seq<Item>, incoming: seq<seq<byte>>, outgoing: seq<byte>)
    requires items != []
    ensures Reads(Stream([], [WireAll(items)] + incoming, outgoing), |items|) ==
            (Stream([], incoming, outgoing), Contents(items))
  {
    WireIsNotEmpty(items);
    ReadRefills(WireAll(items), incoming, outgoing);
    OneDeliveryIsReadBack(items, incoming, outgoing);
  }

  /** However packets and acknowledgements are grouped into deliveries, as long as each arrives
      whole: the reads return every payload, in order, and nothing is left. */
  lemma {:induction false} EverythingSentIsReadBack(batches: seq<seq<Item>>, outgoing: seq<byte>)
    requires forall i :: 0 <= i < |batches| ==> batches[i] != []
    ensures Reads(Stream([], Deliveries(batches), outgoing), |Flatten(batches)|) ==
            (Stream([], [], outgoing), Contents(Flatten(batches)))
    decreases |batches|
  {
    if batches != [] {
      var first, later := batches[0], batches[1..];
      EverythingSentIsReadBack(later, outgoing);
      NextDeliveryIsReadBack(first, Deliveries(later), outgoing);
      ContentsConcat(first, Flatten(later));
      ReadsInTurn(Stream([], Deliveries(batches), outgoing), Stream([], Deliveries(later), outgoing),
        Stream([], [], outgoing),
                  |first|, |Flatten(later)|, |Flatten(batches)|);
    }
  }

  lemma ReadsInTurn(s: Stream, t: Stream, u: Stream, a: nat, b: nat, n: nat)
    requires n == a + b && Reads(s, a).0 == t && Reads(t, b).0 == u
    ensures Reads(s, n) == (u, Reads(s, a).1 + Reads(t, b).1)
  {
    ReadsAppend(s, a, b);
  }

  /** The socket of one client. */
  class ClientSocket {
    var incoming: seq<seq<byte>>
    var outgoing: seq<byte>

    constructor (incoming: seq<seq<byte>>)
      ensures this.incoming == incoming && outgoing == []
    {
      this.incoming, outgoing := incoming, [];
    }

    method Receive() returns (data: seq<byte>)
      modifies this
      ensures data == if old(incoming) == [] then [] else old(incoming)[0]
      ensures incoming == if old(incoming) == [] then [] else old(incoming)[1..]
      ensures outgoing == old(outgoing)
    {
      data := [];
      if incoming != [] {
        data, incoming := incoming[0], incoming[1..];
      }
    }

    method Write(data: seq<byte>)
      modifies this
      ensures outgoing == old(outgoing) + data && incoming == old(incoming)
    {
      outgoing := outgoing + data;
    }
  }

  class GdbInputStream {
    const socket: ClientSocket
    var inputBuffer: seq<byte>
    var nextMessage: seq<byte>

    ghost function State(): Stream
      reads this, socket
    {
      Stream(inputBuffer, socket.incoming, socket.outgoing)
    }

    constructor (socket: ClientSocket)
      ensures this.socket == socket && inputBuffer == []
    {
      this.socket := socket;
      inputBuffer, nextMessage := [], [];
    }

    method EnsureInputBuffer(position: nat) returns (available: bool)
      modifies this`inputBuffer, socket
      ensures State() == Refill(old(State()), position)
      ensures available == (inputBuffer != [])
    {
      if position < |inputBuffer| {
        return true;
      }
      inputBuffer := socket.Receive();
      available := |inputBuffer| > 0;
    }

    /** Collects the message up to its end mark. */
    method ReadBody() returns (outcome: Outcome, position: nat, checksum: nat)
      modifies this, socket
      ensures var (s, body) := Scan(old(State()), 1, 0, false, []);
              State() == s &&
              body == if outcome == NoData && position > 0 then Body(nextMessage, checksum, position)
                else Stopped(outcome)
    {
      nextMessage := [];
      position, checksum := 1, 0;
      var shouldEscape := false;
      while true
        invariant position > 0
        invariant Scan(old(State()), 1, 0, false, []) == Scan(State(), position, checksum, shouldEscape, nextMessage)
        decreases |State().incoming|, Remaining(State(), position)
      {
        var available := EnsureInputBuffer(position);
        if !available {
          return NoData, 0, checksum;
        }
        if position >= |inputBuffer| {
          return IndexError, 0, checksum;
        }
        var c := inputBuffer[position];
        if shouldEscape {
          shouldEscape := false;
          nextMessage := nextMessage + [Flip(c)];
        } else if c == ESCAPE {
          shouldEscape := true;
        } else if c == STAR {
          return RunLengthUnsupported, 0, checksum;
        } else if c == HASH {
          return NoData, position + 1, checksum;
        } else {
          nextMessage := nextMessage + [c];
        }
        checksum := checksum + c;
        position := position + 1;
      }
    }

    method CheckDigit(position: nat, digit: nat) returns (outcome: Outcome, correct: Option<bool>)
      modifies this`inputBuffer, socket
      ensures (State(), correct, outcome) == CheckByte(old(State()), position, digit)
    {
      var available := EnsureInputBuffer(position);
      if !available {
        return NoData, None;
      }
      if position >= |inputBuffer| {
        return IndexError, None;
      }
      return NoData, Some(digit != inputBuffer[position]);
    }

    /** Looks at the two checksum bytes and drops the message from the buffer. */
    method ReadChecksum(position: nat, sum: nat) returns (outcome: Outcome, correct: Option<bool>)
      modifies this`inputBuffer, socket
      ensures (State(), correct, outcome) == CheckEnd(old(State()), position, sum)
    {
      var checksum := sum % 256;
      outcome, correct := CheckDigit(position, checksum / 16);
      if correct.Some? {
        var second;
        outcome, second := CheckDigit(position + 1, checksum % 16);
        correct := if second.None? then None else Some(correct.value && second.value);
        if correct.Some? {
          inputBuffer := inputBuffer[position + 2..];
        }
      }
    }

    method ReadMessage() returns (outcome: Outcome)
      modifies this, socket
      ensures (State(), outcome) == Read(old(State()))
      decreases |socket.incoming|, |inputBuffer|
    {
      var available := EnsureInputBuffer(0);
      if !available {
        return NoData;
      }
      if inputBuffer[0] == PLUS {
        inputBuffer := inputBuffer[1..];
        return Message([PLUS]);
      }
      if inputBuffer[0] == MINUS {
        inputBuffer := inputBuffer[1..];
        return Message([MINUS]);
      }
      if inputBuffer[0] != DOLLAR {
        if inputBuffer[0] >= 128 {
          return DecodeError;
        }
        socket.Write([MINUS]);
        inputBuffer := [];
        outcome := ReadMessage();
        return;
      }
      var position, checksum;
      outcome, position, checksum := ReadBody();
      if outcome != NoData || position == 0 {
        return;
      }
      var correct;
      outcome, correct := ReadChecksum(position, checksum);
      if correct.None? {
        return;
      }
      if !correct.value {
        socket.Write([MINUS]);
        outcome := ReadMessage();
        return;
      }
      return Message(nextMessage);
    }
  }

  function Items(payloads: seq<seq<byte>>): seq<Item> {
    seq(|payloads|, i requires 0 <= i < |payloads| => Payload(payloads[i]))
  }

  /** Writes one packet for each payload; returns all that was sent, joined. */
  method Transmit(payloads: seq<seq<byte>>) returns (wire: seq<byte>)
    ensures wire == WireAll(Items(payloads))
  {
    var writer := new GdbMessageWriter();
    wire := [];
    var i := 0;
    while i < |payloads|
      invariant i <= |payloads| && fresh(writer) && writer.Valid() && writer.payload == []
      invariant wire == WireAll(Items(payloads[..i]))
    {
      var packet := TransmitOne(writer, payloads[i]);
      WireAllGrows(payloads, i);
      wire := wire + packet;
      i := i + 1;
    }
    assert payloads[..i] == payloads;
  }

  method TransmitOne(writer: GdbMessageWriter, payload: seq<byte>) returns (packet: seq<byte>)
    requires writer.Valid() && writer.payload == []
    modifies writer
    ensures writer.Valid() && writer.payload == [] && writer.sent == old(writer.sent) + [packet]
    ensures packet == Packet(payload)
  {
    writer.Append(payload);
    assert [] + payload == payload;
    writer.Send();
    packet := writer.sent[|writer.sent| - 1];
  }

  lemma ItemsGrow(payloads: seq<seq<byte>>, i: nat)
    requires i < |payloads|
    ensures Items(payloads[..i + 1]) == Items(payloads[..i]) + [Payload(payloads[i])]
  {
  }

  lemma WireAllGrows(payloads: seq<seq<byte>>, i: nat)
    requires i < |payloads|
    ensures WireAll(Items(payloads[..i + 1])) == WireAll(Items(payloads[..i])) + Packet(payloads[i])
  {
    WireAllAppend(Items(payloads[..i]), Payload(payloads[i]));
    ItemsGrow(payloads, i);
  }

  lemma {:induction false} WireAllAppend(items: seq<Item>, item: Item)
    ensures WireAll(items + [item]) == WireAll(items) + Wire(item)
    decreases |items|
  {
    if items == [] {
      assert [item][1..] == [] && items + [item] == [item];
      assert WireAll([item]) == Wire(item) + WireAll([]);
    } else {
      assert (items + [item])[1..] == items[1..] + [item];
      WireAllAppend(items[1..], item);
    }
  }

  method ReadMany(stream: GdbInputStream, n: nat) returns (outcomes: seq<Outcome>)
    modifies stream, stream.socket
    ensures (stream.State(), outcomes) == Reads(old(stream.State()), n)
    decreases n
  {
    if n == 0 {
      return [];
    }
    var outcome := stream.ReadMessage();
    var others := ReadMany(stream, n - 1);
    outcomes := [outcome] + others;
  }

  lemma {:induction false} ContentsOfItems(payloads: seq<seq<byte>>, i: nat)
    requires i < |payloads|
    ensures |Contents(Items(payloads))| == |payloads| && Contents(Items(payloads))[i] == Message(payloads[i])
    decreases |payloads|
  {
    assert Items(payloads)[1..] == Items(payloads[1..]);
    if |payloads| > 1 {
      ContentsOfItems(payloads[1..], if i > 0 then i - 1 else 0);
    }
  }

  /** The writer and the reader together: payloads written, sent and delivered at once come back
      as they were. */
  method PayloadsComeBack(payloads: seq<seq<byte>>) returns (received: seq<Outcome>)
    ensures |received| == |payloads| && forall i :: 0 <= i < |payloads| ==> received[i] == Message(payloads[i])
  {
    if payloads == [] {
      return [];
    }
    var wire := Transmit(payloads);
    var socket := new ClientSocket([wire]);
    var stream := new GdbInputStream(socket);
    received := ReadMany(stream, |payloads|);
    NextDeliveryIsReadBack(Items(payloads), [], []);
    assert [wire] + [] == [wire];
    ContentsOfItems(payloads, 0);
    forall i | 0 <= i < |payloads| ensures received[i] == Message(payloads[i]) {
      ContentsOfItems(payloads, i);
    }
  }
}
