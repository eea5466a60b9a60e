/** Building GDB remote protocol packets: escaping, checksum and hexadecimal numbers. */
module Packets {
  import opened Options
  import opened ByteMemory

  const DOLLAR: byte := 36
  const HASH: byte := 35
  const STAR: byte := 42
  const ESCAPE: byte := 125

  predicate IsSpecial(c: byte) {
    c == DOLLAR || c == HASH || c == STAR || c == ESCAPE
  }

  /** The exclusive or of a byte with 0x20. */
  function Flip(c: byte): (r: byte)
    ensures r == c + 32 || r == c - 32
  {
    if c / 32 % 2 == 0 then c + 32 else c - 32
  }

  /** No special byte is left in the escaped form, and flipping again restores the byte. */
  lemma FlipInverts(c: byte)
    ensures Flip(Flip(c)) == c && (IsSpecial(c) ==> !IsSpecial(Flip(c)))
  {
  }

  lemma FlipIsExclusiveOr(c: bv8)
    ensures (c ^ 0x20) as int == Flip(c as int)
  {
  }

  function EscapedChar(c: byte): seq<byte> {
    if IsSpecial(c) then [ESCAPE, Flip(c)] else [c]
  }

  function Escaped(payload: seq<byte>): seq<byte> {
    if payload == [] then [] else EscapedChar(payload[0]) + Escaped(payload[1..])
  }

  function Sum(data: seq<byte>): nat {
    if data == [] then 0 else data[0] + Sum(data[1..])
  }

  lemma {:induction false} SumConcat(a: seq<byte>, b: seq<byte>)
    ensures Sum(a + b) == Sum(a) + Sum(b)
  {
    if a == [] {
      assert a + b == b;
    } else {
      assert (a + b)[1..] == a[1..] + b;
      SumConcat(a[1..], b);
    }
  }

  lemma SumOfShort(a: byte, b: byte)
    ensures Sum([a]) == a && Sum([a, b]) == a + b
  {
    assert [a][1..] == [] && [a, b][1..] == [b] && [b][1..] == [];
    assert Sum([b]) == b + Sum([]);
  }

  lemma {:induction false} EscapedConcat(a: seq<byte>, b: seq<byte>)
    ensures Escaped(a + b) == Escaped(a) + Escaped(b)
  {
    if a == [] {
      assert a + b == b;
    } else {
      assert (a + b)[1..] == a[1..] + b;
      EscapedConcat(a[1..], b);
    }
  }

  /** What one more byte adds to the escaped form and to the sum on the wire. */
  lemma EscapedAppend(payload: seq<byte>, c: byte)
    ensures Escaped(payload + [c]) == Escaped(payload) + EscapedChar(c)
    ensures Sum(Escaped(payload + [c])) == Sum(Escaped(payload)) + if IsSpecial(c) then ESCAPE + Flip(c) else c
  {
    EscapedConcat(payload, [c]);
    assert Escaped([c]) == EscapedChar(c) + Escaped([]) == EscapedChar(c);
    SumConcat(Escaped(payload), EscapedChar(c));
    SumOfShort(c, c);
    SumOfShort(ESCAPE, Flip(c));
  }

  /** Nothing inside an escaped payload can be taken for the start or end of a packet, or for a
      run-length marker. */
  lemma {:induction false} EscapedHidesFraming(payload: seq<byte>)
    ensures var e := Escaped(payload); HASH !in e && DOLLAR !in e && STAR !in e
  {
    if payload != [] {
      FlipInverts(payload[0]);
      EscapedHidesFraming(payload[1..]);
    }
  }

  /** The whole packet that carries `payload` with the two checksum bytes `c1` and `c2`. */
  function Framed(payload: seq<byte>, c1: byte, c2: byte): seq<byte> {
    [DOLLAR] + Escaped(payload) + [HASH, c1, c2]
  }

  function Checksum(payload: seq<byte>): (r: nat)
    ensures r < 256
  {
    Sum(Escaped(payload)) % 256
  }

  function Packet(payload: seq<byte>): seq<byte> {
    Framed(payload, HexDigit(Checksum(payload) / 16), HexDigit(Checksum(payload) % 16))
  }

  /** The digits as characters: written in upper case, read in both. */
  lemma DigitsByCharacter(c: byte, d: nat)
    requires d < 16
    ensures HexDigit(d) == "0123456789ABCDEF"[d] as int
    ensures IsHexDigit(c) && DigitValue(c) == d <==>
            c == "0123456789ABCDEF"[d] as int || c == "0123456789abcdef"[d] as int
  {
  }

  /** The escaped form byte by byte: '$', '#', '*' and '}' become '}' and the byte with bit 5 flipped, and
      every other byte stands for itself. */
  lemma {:induction false} EscapedByByte(payload: seq<byte>, c: byte)
    ensures Escaped(payload + [c]) ==
            Escaped(payload) +
            if c in {'$' as int, '#' as int, '*' as int, '}' as int} then ['}' as int, Flip(c)] else [c]
  {
    EscapedAppend(payload, c);
  }

  /** The whole packet: '$', the escaped payload, '#', and the sum of the escaped bytes modulo 256 as two
      hexadecimal digits. */
  lemma PacketOnTheWire(payload: seq<byte>)
    ensures var p, sum := Packet(payload), Sum(Escaped(payload)) % 256;
            p == ['$' as int] + Escaped(payload) + ['#' as int] + HexDigits(sum, 2)
  {
    var sum := Sum(Escaped(payload)) % 256;
    assert HexDigits(sum / 16, 1) == [] + [HexDigit(sum / 16 % 16)] == [HexDigit(sum / 16)];
    assert HexDigits(sum, 2) == HexDigits(sum / 16, 1) + [HexDigit(sum % 16)];
  }

  predicate IsHexDigit(c: byte) {
    48 <= c <= 57 || 65 <= c <= 70 || 97 <= c <= 102
  }

  function DigitValue(c: byte): (r: nat)
    requires IsHexDigit(c)
    ensures r < 16
  {
    if c >= 97 then c - 87 else if c >= 65 then c - 55 else c - 48
  }

  function HexDigit(digit: nat): (r: byte)
    requires digit < 16
    ensures IsHexDigit(r) && DigitValue(r) == digit && r >= 48 && !IsSpecial(r)
  {
    if digit < 10 then 48 + digit else 55 + digit
  }

  function HexDigits(number: nat, minDigits: int): (r: seq<byte>)
    ensures forall c <- r :: IsHexDigit(c)
    decreases number, if minDigits > 0 then minDigits else 0
  {
    (if number >= 16 || minDigits > 1 then HexDigits(number / 16, minDigits - 1) else []) + [HexDigit(number % 16)]
  }

  /** The number that a row of hexadecimal digits stands for. */
  function ValueOf(digits: seq<byte>): nat
    requires forall c <- digits :: IsHexDigit(c)
  {
    if digits == [] then 0 else ValueOf(digits[..|digits| - 1]) * 16 + DigitValue(digits[|digits| - 1])
  }

  lemma {:induction false} HexDigitsValue(number: nat, minDigits: int)
    ensures ValueOf(HexDigits(number, minDigits)) == number
    decreases number, if minDigits > 0 then minDigits else 0
  {
    var last := HexDigit(number % 16);
    if number >= 16 || minDigits > 1 {
      HexDigitsValue(number / 16, minDigits - 1);
      ValueOfMore(HexDigits(number / 16, minDigits - 1), last);
    } else {
      ValueOfMore([], last);
    }
  }

  /** Digits beyond those asked for do not start with a zero. */
  lemma {:induction false} HexDigitsPadding(number: nat, minDigits: int)
    ensures NotPadded(HexDigits(number, minDigits), number, minDigits)
    decreases number, if minDigits > 0 then minDigits else 0
  {
    var last := HexDigit(number % 16);
    if number >= 16 || minDigits > 1 {
      var high := HexDigits(number / 16, minDigits - 1);
      HexDigitsPadding(number / 16, minDigits - 1);
      PaddingOfMore(high, number, minDigits);
    } else {
      assert HexDigits(number, minDigits) == [] + [last] == [last];
    }
  }

  ghost predicate NotPadded(digits: seq<byte>, number: nat, minDigits: int) {
    && |digits| >= 1 && |digits| >= minDigits
    && (|digits| == 1 ==> digits == [HexDigit(number % 16)] && number < 16)
    && (|digits| > 1 && |digits| > minDigits ==> digits[0] != 48)
  }

  lemma PaddingOfMore(high: seq<byte>, number: nat, minDigits: int)
    requires (number >= 16 || minDigits > 1) && NotPadded(high, number / 16, minDigits - 1)
    ensures NotPadded(high + [HexDigit(number % 16)], number, minDigits)
  {
  }

  /** The written digits denote the number, are as many as asked for, and have no other padding. */
  lemma HexDigitsDenote(number: nat, minDigits: int)
    ensures var r := HexDigits(number, minDigits);
            ValueOf(r) == number && |r| >= 1 && |r| >= minDigits &&
            (|r| > 1 && |r| > minDigits ==> r[0] != 48)
  {
    HexDigitsValue(number, minDigits);
    HexDigitsPadding(number, minDigits);
  }

  lemma ValueOfMore(high: seq<byte>, digit: byte)
    requires (forall c <- high :: IsHexDigit(c)) && IsHexDigit(digit)
    ensures ValueOf(high + [digit]) == ValueOf(high) * 16 + DigitValue(digit)
  {
    assert (high + [digit])[..|high|] == high;
  }

  /** Where the run of hexadecimal digits that starts at `position` ends. */
  function HexRun(data: seq<byte>, position: nat): (r: nat)
    requires position <= |data|
    ensures position <= r <= |data| && (forall k :: position <= k < r ==> IsHexDigit(data[k]))
    ensures r < |data| ==> !IsHexDigit(data[r])
    decreases |data| - position
  {
    if position < |data| && IsHexDigit(data[position]) then HexRun(data, position + 1) else position
  }

  /** Parsing what was appended gives the number back and stops right behind it, for every number
      and padding, if the message ends there or goes on with something that is no digit. */
  lemma ParsingInvertsAppending(before: seq<byte>, number: nat, minDigits: int, after: seq<byte>)
    requires after == [] || !IsHexDigit(after[0])
    ensures var digits := HexDigits(number, minDigits); var data := before + digits + after;
            HexRun(data, |before|) == |before| + |digits| && data[|before|..|before| + |digits|] == digits &&
            |digits| > 0 && ValueOf(digits) == number
  {
    var digits := HexDigits(number, minDigits);
    var data := before + digits + after;
    HexDigitsDenote(number, minDigits);
    assert forall k :: 0 <= k < |digits| ==> data[|before| + k] == digits[k] && digits[k] in digits;
    assert after != [] ==> data[|before| + |digits|] == after[0];
  }

  /** A message being parsed. */
  class GdbMessageParser {
    const data: seq<byte>
    var position: nat

    ghost predicate Valid() reads this { position <= |data| }

    constructor (data: seq<byte>)
      ensures Valid() && this.data == data && position == 0
    {
      this.data := data;
      position := 0;
    }

    method ParseHex() returns (number: Option<nat>)
      requires Valid()
      modifies this
      ensures Valid() && position == HexRun(data, old(position))
      ensures number == if position == old(position) then None else Some(ValueOf(data[old(position)..position]))
    {
      number := None;
      ghost var start := position;
      while position < |data|
        invariant start <= position <= |data| && HexRun(data, start) == HexRun(data, position)
        invariant forall k :: start <= k < position ==> IsHexDigit(data[k])
        invariant number == if position == start then None else Some(ValueOf(data[start..position]))
        decreases |data| - position
      {
        var c := data[position];
        if !IsHexDigit(c) {
          break;
        }
        var value := if c >= 97 then c - 87 else if c >= 65 then c - 55 else c - 48;
        assert data[start..position + 1][..position - start] == data[start..position];
        number := Some((if number.None? then 0 else number.value) * 16 + value);
        position := position + 1;
      }
    }
  }

  /** A message being written. `sent` is what went to the socket. */
  class GdbMessageWriter {
    var data: seq<byte>
    var checksum: nat
    var sent: seq<seq<byte>>
    ghost var payload: seq<byte>

    ghost predicate Valid() reads this {
      data == [DOLLAR] + Escaped(payload) && checksum == Sum(Escaped(payload))
    }

    constructor ()
      ensures Valid() && payload == [] && sent == []
    {
      data, checksum, sent, payload := [DOLLAR], 0, [], [];
    }

    method Clear()
      modifies this
      ensures Valid() && payload == [] && sent == old(sent)
    {
      data := [];
      checksum := 0;
      data := data + [DOLLAR];
      payload := [];
    }

    method AppendChar(c: byte)
      requires Valid()
      modifies this
      ensures Valid() && payload == old(payload) + [c] && sent == old(sent)
    {
      EscapedAppend(payload, c);
      if IsSpecial(c) {
        var flipped := Flip(c);
        data := data + [ESCAPE] + [flipped];
        checksum := checksum + ESCAPE + flipped;
      } else {
        data := data + [c];
        checksum := checksum + c;
      }
      payload := payload + [c];
    }

    method Append(bytes: seq<byte>)
      requires Valid()
      modifies this
      ensures Valid() && payload == old(payload) + bytes && sent == old(sent)
    {
      var position := 0;
      while position < |bytes|
        invariant position <= |bytes|
        invariant Valid() && payload == old(payload) + bytes[..position] && sent == old(sent)
      {
        AppendChar(bytes[position]);
        position := position + 1;
      }
    }

    /** Writes the digit without escaping it: no digit is special. */
    method AppendHexDigit(digit: nat)
      requires digit < 16
      modifies this
      ensures data == old(data) + [HexDigit(digit)] && sent == old(sent)
      ensures old(Valid()) ==> Valid()
      ensures payload == old(payload) + [HexDigit(digit)]
    {
      var c: byte := if digit < 10 then 48 + digit else 55 + digit;
      EscapedAppend(payload, c);
      data := data + [c];
      checksum := checksum + c;
      payload := payload + [c];
    }

    method AppendHex(number: nat, minDigits: int)
      requires Valid()
      modifies this
      ensures Valid() && payload == old(payload) + HexDigits(number, minDigits) && sent == old(sent)
      decreases number, if minDigits > 0 then minDigits else 0
    {
      if number >= 16 || minDigits > 1 {
        AppendHex(number / 16, minDigits - 1);
      }
      AppendHexDigit(number % 16);
    }

    /** Frames the message with the checksum of the bytes on the wire, sends it and starts anew. */
    method Send()
      requires Valid()
      modifies this
      ensures Valid() && payload == []
      ensures sent == old(sent) + [Packet(old(payload))]
    {
      ghost var message := payload;
      data := data + [HASH];
      var sum := checksum % 256;
      AppendHexDigit(sum / 16);
      AppendHexDigit(sum % 16);
      assert data == Packet(message);
      sent := sent + [data];
      Clear();
    }
  }
}
