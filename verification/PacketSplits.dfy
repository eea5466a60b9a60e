/** A packet that arrives in two parts: its payload never comes back. The refill drops the part that
    was scanned already but keeps the position, so the scan goes on in the middle of the new part. */
module PacketSplits {
  import opened Options
  import opened ByteMemory
  import opened Packets
  import opened PacketReader

  predicate Framing(c: byte) {
    c == HASH || c == STAR || c == DOLLAR
  }

  /** The bytes behind `position` hide the framing, as an escaped payload does. */
  ghost predicate HidesFraming(data: seq<byte>, position: nat) {
    forall i :: position <= i < |data| ==> !Framing(data[i])
  }

  /** The wire bytes a scan has used up for what it has collected. */
  function Used(message: seq<byte>, escaped: bool): nat {
    |Escaped(message)| + if escaped then 1 else 0
  }

  /** One more wire byte collects at most one more wire byte's worth of message. */
  lemma UsedByOne(message: seq<byte>, escaped: bool, c: byte)
    requires !Framing(c)
    ensures escaped ==> Used(message + [Flip(c)], false) <= Used(message, true) + 1
    ensures !escaped && c == ESCAPE ==> Used(message, true) == Used(message, false) + 1
    ensures !escaped && c != ESCAPE ==> Used(message + [c], false) == Used(message, false) + 1
  {
    EscapedAppend(message, Flip(c));
    EscapedAppend(message, c);
  }

  datatype Progress = Progress(checksum: nat, escaped: bool, message: seq<byte>)

  function Advance(p: Progress, c: byte): Progress {
    if p.escaped then Progress(p.checksum + c, false, p.message + [Flip(c)])
    else if c == ESCAPE then Progress(p.checksum + c, true, p.message)
    else Progress(p.checksum + c, false, p.message + [c])
  }

  /** A part without an end mark is scanned to its end. */
  lemma {:induction false} ScanPart(s: Stream, position: nat, p: Progress) returns (q: Progress)
    requires position <= |s.buffer| && HidesFraming(s.buffer, position)
    ensures Scan(s, position, p.checksum, p.escaped, p.message) ==
            Scan(s, |s.buffer|, q.checksum, q.escaped, q.message)
    ensures Used(q.message, q.escaped) <= Used(p.message, p.escaped) + |s.buffer| - position
    decreases |s.buffer| - position
  {
    if position == |s.buffer| {
      return p;
    }
    var c := s.buffer[position];
    UsedByOne(p.message, p.escaped, c);
    q := ScanPart(s, position + 1, Advance(p, c));
  }

  /** The last delivery, whose only end mark is at `mark`. */
  ghost predicate EndsAt(s: Stream, mark: nat) {
    && s.incoming == [] && mark < |s.buffer| && s.buffer[mark] == HASH
    && (forall i :: 0 <= i < |s.buffer| && i != mark ==> !Framing(s.buffer[i]))
  }

  /** A scan that finds the end mark has collected no more than it has used up. */
  lemma {:induction false} ScanEnd(s: Stream, mark: nat, position: nat, p: Progress)
    requires EndsAt(s, mark)
    ensures var (t, body) := Scan(s, position, p.checksum, p.escaped, p.message);
            body.Body? ==> t == s && position <= mark && body.position == mark + 1 &&
                           |Escaped(body.message)| <= Used(p.message, p.escaped) + mark - position
    decreases Remaining(s, position)
  {
    if position < |s.buffer| {
      var c := s.buffer[position];
      if position != mark {
        UsedByOne(p.message, p.escaped, c);
        ScanEnd(s, mark, position + 1, Advance(p, c));
      } else if p.escaped {
        ScanEnd(s, mark, position + 1, Advance(p, c));
      }
    }
  }

  lemma ScanRefills(s: Stream, position: nat, p: Progress)
    requires position >= |s.buffer| && position < |Refill(s, position).buffer|
    ensures Scan(s, position, p.checksum, p.escaped, p.message) ==
            Scan(Refill(s, position), position, p.checksum, p.escaped, p.message)
  {
  }

  lemma PacketIsFramed(payload: seq<byte>)
    ensures var e, packet := Escaped(payload), Packet(payload);
            && |packet| == |e| + 4 && packet[0] == DOLLAR && packet[|e| + 1] == HASH
            && (forall i :: 1 <= i < |packet| && i != |e| + 1 ==> !Framing(packet[i]))
  {
    EscapedHidesFraming(payload);
    var e, packet := Escaped(payload), Packet(payload);
    forall i | 1 <= i < |packet| && i != |e| + 1 ensures !Framing(packet[i]) {
      if i <= |e| {
        assert packet[i] == e[i - 1] && e[i - 1] in e;
      }
    }
  }

  lemma {:induction false} StoppingIsNoMessage(s: Stream, position: nat, p: Progress)
    ensures var body := Scan(s, position, p.checksum, p.escaped, p.message).1;
            body.Stopped? ==> !body.outcome.Message?
    decreases |s.incoming|, Remaining(s, position)
  {
    var t := Refill(s, position);
    if position < |t.buffer| {
      StoppingIsNoMessage(t, position + 1, Advance(p, t.buffer[position]));
    }
  }

  /** Split before its end mark: what the scan collects in the second part is too short. */
  lemma CutBeforeTheMark(payload: seq<byte>, k: nat, outgoing: seq<byte>)
    requires 0 < k <= |Escaped(payload)| + 1
    ensures var second := Packet(payload)[k..];
            var (t, body) := Scan(Stream(Packet(payload)[..k], [second], outgoing), 1, 0, false, []);
            if body.Stopped? then !body.outcome.Message?
            else body.message != payload && t == Stream(second, [], outgoing) && body.position + 2 == |second|
  {
    PacketIsFramed(payload);
    var e, packet := |Escaped(payload)|, Packet(payload);
    var s, t := Stream(packet[..k], [packet[k..]], outgoing), Stream(packet[k..], [], outgoing);
    var p := ScanPart(s, 1, Progress(0, false, []));
    assert Refill(s, k) == t;
    StoppingIsNoMessage(s, 1, Progress(0, false, []));
    if k < |t.buffer| {
      ScanRefills(s, k, p);
      ScanEnd(t, e + 1 - k, k, p);
    }
  }

  /** Split behind its end mark: the second part is too short for the position. */
  lemma CutBehindTheMark(payload: seq<byte>, k: nat, outgoing: seq<byte>)
    requires |Escaped(payload)| + 1 < k < |Packet(payload)|
    ensures Read(Stream(Packet(payload)[..k], [Packet(payload)[k..]], outgoing)).1 == IndexError
  {
    var e, packet := Escaped(payload), Packet(payload);
    var s, post := Stream(packet[..k], [packet[k..]], outgoing), packet[|e| + 1..k];
    PartBehindTheMark(e, packet, k);
    ScanReadsEscaped(s, 1, payload, post, 0, []);
    CheckIsCut(s, |e| + 2, Sum(e));
  }

  lemma PartBehindTheMark(e: seq<byte>, packet: seq<byte>, k: nat)
    requires |packet| == |e| + 4 && packet[..|e| + 2] == [DOLLAR] + e + [HASH] && |e| + 1 < k < |packet|
    ensures packet[..k][0] == DOLLAR && packet[|e| + 1..k][0] == HASH
    ensures packet[..k][1..] == e + packet[|e| + 1..k]
  {
    assert packet[..k] == packet[..|e| + 2] + packet[|e| + 2..k];
    assert packet[|e| + 1] == packet[..|e| + 2][|e| + 1];
  }

  lemma CheckIsCut(s: Stream, position: nat, checksum: nat)
    requires position <= |s.buffer| < position + 2 && |s.incoming| == 1 && 0 < |s.incoming[0]| <= position
    ensures var r := CheckEnd(s, position, checksum); r.1.None? && r.2 == IndexError
  {
  }

  /** Wherever a packet is split, its payload is not what the reader returns. */
  lemma SplitPayloadNeverComesBack(payload: seq<byte>, k: nat, outgoing: seq<byte>)
    requires 0 < k < |Packet(payload)|
    ensures Read(Stream(Packet(payload)[..k], [Packet(payload)[k..]], outgoing)).1 != Message(payload)
  {
    if k <= |Escaped(payload)| + 1 {
      CutBeforeTheMark(payload, k, outgoing);
    } else {
      CutBehindTheMark(payload, k, outgoing);
    }
  }

  /** The two parts of a packet, of which the second may be empty. */
  function Delivered(payload: seq<byte>, k: nat, outgoing: seq<byte>): Stream
    requires k <= |Packet(payload)|
  {
    Stream(Packet(payload)[..k], if k == |Packet(payload)| then [] else [Packet(payload)[k..]], outgoing)
  }

  /** A payload comes back exactly when its packet arrives whole. */
  lemma ComesBackExactlyWhenWhole(payload: seq<byte>, k: nat, outgoing: seq<byte>)
    requires 0 < k <= |Packet(payload)|
    ensures Read(Delivered(payload, k, outgoing)).1 == Message(payload) <==> k == |Packet(payload)|
  {
    if k < |Packet(payload)| {
      SplitPayloadNeverComesBack(payload, k, outgoing);
    } else {
      ReadsOne(Payload(payload), [], [], outgoing);
      assert Packet(payload)[..k] == Packet(payload) + [];
    }
  }

  lemma ScanStep(s: Stream, position: nat, p: Progress)
    requires position < |s.buffer| && !Framing(s.buffer[position])
    ensures var q := Advance(p, s.buffer[position]);
            (p.message == [] && !p.escaped && s.buffer[position] != ESCAPE ==> q.message == [s.buffer[position]]) &&
            Scan(s, position, p.checksum, p.escaped, p.message) ==
              Scan(s, position + 1, q.checksum, q.escaped, q.message)
  {
  }

  /** The packet of "a" arrives as "$a" and "#61": it is lost. */
  lemma SplitPacketIsLost(first: seq<byte>, second: seq<byte>)
    requires first == [DOLLAR, 97] && second == [HASH, 54, 49]
    ensures first + second == Packet([97])
    ensures Read(Stream(first, [second], [])) == (Stream([], [], []), NoData)
  {
    var s, t := Stream(first, [second], []), Stream(second, [], []);
    ScanStep(s, 1, Progress(0, false, []));
    assert Refill(s, 2) == t;
    ScanRefills(s, 2, Progress(97, false, [97]));
    ScanStep(t, 2, Progress(97, false, [97]));
  }

  lemma PacketOfTwo()
    ensures Packet([97, 98]) == [DOLLAR, 97, 98, HASH, 67, 51]
  {
  }

  /** What is left of "ab" in the second part is a message with a checksum that passes. */
  lemma TruncatedIsAccepted(t: Stream)
    requires t == Stream([97, 98, HASH, 67, 51], [], [])
    ensures Scan(t, 1, 0, false, []) == (t, Body([98], 98, 3))
    ensures CheckEnd(t, 3, 98) == (Stream([], [], []), Some(true), NoData)
  {
    ScanStep(t, 1, Progress(0, false, []));
    assert Scan(t, 2, 98, false, [98]) == (t, Body([98], 98, 3));
  }

  /** The packet of "ab" arrives as "$" and "ab#C3": it is accepted as the message "b". */
  lemma SplitPacketIsTruncated(first: seq<byte>, second: seq<byte>)
    requires first == [DOLLAR] && second == [97, 98, HASH, 67, 51]
    ensures first + second == Packet([97, 98])
    ensures Read(Stream(first, [second], [])) == (Stream([], [], []), Message([98]))
  {
    PacketOfTwo();
    var s, t := Stream(first, [second], []), Stream(second, [], []);
    assert Refill(s, 1) == t;
    ScanRefills(s, 1, Progress(0, false, []));
    TruncatedIsAccepted(t);
  }
}
