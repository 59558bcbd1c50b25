/** Base64 decoding with a wrapping 32-bit buffer: native/src/engine.cpp lines 67 to 79, and the
    encoding of section 4 of RFC 4648. */
module Base64 {
  import opened Text
  import opened Wrappers

  type Byte = x: int | 0 <= x < 256
  type Sextet = x: int | 0 <= x < 64

  const WORD := 0x1_0000_0000

  /** The place of a character in the alphabet (table 1 of RFC 4648), or -1. */
  function Position(c: char): (r: int)
    ensures -1 <= r < 64
  {
    if IsUpper(c) then c as int - 'A' as int
    else if IsLower(c) then c as int - 'a' as int + 26
    else if IsDigit(c) then c as int - '0' as int + 52
    else if c == '+' then 62
    else if c == '/' then 63
    else -1
  }

  function Symbol(p: Sextet): char {
    if p < 26 then ('A' as int + p) as char
    else if p < 52 then ('a' as int + p - 26) as char
    else if p < 62 then ('0' as int + p - 52) as char
    else if p == 62 then '+'
    else '/'
  }

  lemma SymbolPosition(p: Sextet)
    ensures Position(Symbol(p)) == p && Symbol(p) != '='
  {
  }

  predicate Encoded(s: string) {
    forall i :: 0 <= i < |s| ==> Position(s[i]) >= 0
  }

  /** The text in front of the padding. */
  function Payload(value: string): string {
    if '=' in value then value[..FirstIndex(value, '=')] else value
  }

  function Power(bits: nat): (r: nat)
    requires bits in {0, 2, 4, 6}
    ensures r > 0
  {
    if bits == 0 then 1 else if bits == 2 then 4 else if bits == 4 then 16 else 64
  }

  /** The byte that six more bits complete, and the bits left over. */
  function Delivered(joined: nat, bits: nat): Byte
    requires bits in {2, 4, 6} && joined < 64 * Power(bits)
  {
    joined / Power(bits - 2)
  }

  function Left(joined: nat, bits: nat): (r: nat)
    requires bits in {2, 4, 6}
    ensures r < Power(bits - 2)
  {
    joined % Power(bits - 2)
  }

  /** Decoding with a queue of exactly the bits not yet delivered: `rest`, of `bits` bits. */
  function Bytes(s: string, rest: nat, bits: nat): seq<Byte>
    requires Encoded(s) && bits in {0, 2, 4, 6} && rest < Power(bits)
  {
    if s == "" then []
    else
      var joined := rest * 64 + Position(s[0]);
      if bits == 0 then Bytes(s[1..], joined, 6)
      else
        [Delivered(joined, bits)] + Bytes(s[1..], Left(joined, bits), bits - 2)
  }

  /** Nothing for text outside the alphabet. */
  function Decoded(value: string): seq<Byte> {
    if Encoded(Payload(value)) then Bytes(Payload(value), 0, 0) else []
  }

  lemma DividesBy4(x: int, q: int, r: nat)
    requires r < 4 && x == 4 * q + r
    ensures x / 4 == q && x % 4 == r
  {
  }

  lemma DividesBy16(x: int, q: int, r: nat)
    requires r < 16 && x == 16 * q + r
    ensures x / 16 == q && x % 16 == r
  {
  }

  lemma DividesBy64(x: int, q: int, r: nat)
    requires r < 64 && x == 64 * q + r
    ensures x / 64 == q && x % 64 == r
  {
  }

  lemma DividesBy256(x: int, q: int, r: nat)
    requires r < 256 && x == 256 * q + r
    ensures x / 256 == q && x % 256 == r
  {
  }

  lemma DividesBy1024(x: int, q: int, r: nat)
    requires r < 1024 && x == 1024 * q + r
    ensures x / 1024 == q && x % 1024 == r
  {
  }

  lemma DividesBy4096(x: int, q: int, r: nat)
    requires r < 4096 && x == 4096 * q + r
    ensures x / 4096 == q && x % 4096 == r
  {
  }

  /** Wrapping at 32 bits does not touch the low bits. */
  lemma Wraps(x: nat, m: nat)
    requires m in {64, 256, 1024, 4096}
    ensures x % WORD % m == x % m
  {
    var k, y := x / WORD, x % WORD;
    var u, v := y / m, y % m;
    if m == 64 { DividesBy64(x, 0x400_0000 * k + u, v); }
    else if m == 256 { DividesBy256(x, 0x100_0000 * k + u, v); }
    else if m == 1024 { DividesBy1024(x, 0x40_0000 * k + u, v); }
    else { DividesBy4096(x, 0x10_0000 * k + u, v); }
  }

  lemma ByteFromTen(y: nat)
    ensures y / 4 % 256 == y % 1024 / 4 && y % 1024 % 4 == y % 4
  {
    var q, s := y / 1024, y % 1024;
    var u, v := s / 4, s % 4;
    DividesBy4(y, 256 * q + u, v);
    DividesBy256(256 * q + u, q, u);
  }

  lemma ByteFromTwelve(y: nat)
    ensures y / 16 % 256 == y % 4096 / 16 && y % 4096 % 16 == y % 16
  {
    var q, s := y / 4096, y % 4096;
    var u, v := s / 16, s % 16;
    DividesBy16(y, 256 * q + u, v);
    DividesBy256(256 * q + u, q, u);
  }

  lemma JoinedLow(buffer: nat, p: Sextet)
    ensures (buffer * 64 + p) % 64 == p
    ensures (buffer * 64 + p) % 256 == buffer % 4 * 64 + p
    ensures (buffer * 64 + p) % 1024 == buffer % 16 * 64 + p
    ensures (buffer * 64 + p) % 4096 == buffer % 64 * 64 + p
  {
    DividesBy64(buffer * 64 + p, buffer, p);
    DividesBy256(buffer * 64 + p, buffer / 4, buffer % 4 * 64 + p);
    DividesBy1024(buffer * 64 + p, buffer / 16, buffer % 16 * 64 + p);
    DividesBy4096(buffer * 64 + p, buffer / 64, buffer % 64 * 64 + p);
  }

  /** The buffer keeps the undelivered bits in its low end; what wraps away was delivered before. */
  lemma BufferStep(buffer: nat, bits: nat, p: Sextet)
    requires bits in {0, 2, 4, 6}
    ensures var next, joined := (buffer * 64 + p) % WORD, buffer % Power(bits) * 64 + p;
            if bits == 0 then next % 64 == joined
            else next / Power(bits - 2) % 256 == Delivered(joined, bits)
                 && next % Power(bits - 2) == Left(joined, bits)
  {
    var x := buffer * 64 + p;
    JoinedLow(buffer, p);
    ByteFromTen(x % WORD);
    ByteFromTwelve(x % WORD);
    if bits == 0 { Wraps(x, 64); }
    else if bits == 2 { Wraps(x, 256); }
    else if bits == 4 { Wraps(x, 1024); }
    else { Wraps(x, 4096); }
  }

  lemma PayloadStep(value: string, i: nat)
    requires i < |value| && '=' !in value[..i]
    ensures value[i] == '=' ==> Payload(value) == value[..i]
    ensures value[i] != '=' ==> '=' !in value[..i + 1] && i < |Payload(value)| && Payload(value)[i] == value[i]
  {
    if '=' in value {
      var at := FirstIndex(value, '=');
      assert value[..at][..0] == "" && forall k :: 0 <= k < i ==> value[k] == value[..i][k];
      assert at >= i;
    }
  }

  lemma {:induction false} BytesStep(s: string, i: nat, rest: nat, bits: nat)
    requires Encoded(s) && i < |s| && bits in {0, 2, 4, 6} && rest < Power(bits)
    ensures Encoded(s[i..]) && Encoded(s[i + 1..])
    ensures var joined := rest * 64 + Position(s[i]);
            Bytes(s[i..], rest, bits) ==
            if bits == 0 then Bytes(s[i + 1..], joined, 6)
            else
              [Delivered(joined, bits)] + Bytes(s[i + 1..], Left(joined, bits), bits - 2)
  {
    assert s[i..][0] == s[i] && s[i..][1..] == s[i + 1..];
  }

  /** The decoder of the source: a 32-bit buffer that is shifted and never cleared. */
  method Base64Decode(value: string) returns (output: seq<Byte>)
    ensures output == Decoded(value)
  {
    hide Bytes, Payload, Position, Delivered, Left;
    output := [];
    var buffer: nat, bits: nat := 0, 0;
    var i := 0;
    ghost var payload := Payload(value);
    PayloadStart(value);
    while i < |value| && value[i] != '='
      invariant i <= |payload| <= |value| && payload[..i] == value[..i] && '=' !in value[..i]
      invariant Encoded(value[..i]) && bits in {0, 2, 4, 6}
      invariant Encoded(payload) ==> output + Bytes(payload[i..], buffer % Power(bits), bits) == Bytes(payload, 0, 0)
    {
      PayloadStep(value, i);
      var position := Position(value[i]);
      if position < 0 {
        assert !Encoded(payload) by { assert Position(payload[i]) < 0; }
        return [];
      }
      if Encoded(payload) { BytesStep(payload, i, buffer % Power(bits), bits); }
      BufferStep(buffer, bits, position);
      ghost var before := output;
      buffer := (buffer * 64 + position) % WORD;
      bits := bits + 6;
      if bits >= 8 {
        bits := bits - 8;
        output := output + [buffer / Power(bits) % 256];
      }
      i := i + 1;
    }
    PayloadEnd(value, i);
    assert payload[i..] == "" && payload == value[..i];
    assert output + Bytes("", buffer % Power(bits), bits) == output by { NoBytes(buffer % Power(bits), bits); }
  }

  lemma NoBytes(rest: nat, bits: nat)
    requires bits in {0, 2, 4, 6} && rest < Power(bits)
    ensures Bytes("", rest, bits) == []
  {
  }

  lemma PayloadStart(value: string)
    ensures Payload(value) <= value
  {
  }

  lemma PayloadEnd(value: string, i: nat)
    requires i <= |value| && '=' !in value[..i] && (i < |value| ==> value[i] == '=')
    ensures Payload(value) == value[..i]
  {
    if i < |value| { PayloadStep(value, i); } else { assert value[..i] == value; }
  }

  // The bits of three bytes as four groups of six.

  function First(x: Byte): Sextet { x / 4 }
  function Second(x: Byte, y: Byte): Sextet { x % 4 * 16 + y / 16 }
  function Third(y: Byte, z: Byte): Sextet { y % 16 * 4 + z / 64 }
  function Fourth(z: Byte): Sextet { z % 64 }
  function High4(y: Byte): (r: nat)
    ensures r < 16
  {
    y / 16
  }
  function High2(z: Byte): (r: nat)
    ensures r < 4
  {
    z / 64
  }

  /** The characters for the bytes, without the padding. */
  function Unpadded(b: seq<Byte>): string {
    if |b| == 0 then ""
    else if |b| == 1 then [Symbol(First(b[0])), Symbol(Second(b[0], 0))]
    else if |b| == 2 then [Symbol(First(b[0])), Symbol(Second(b[0], b[1])), Symbol(Third(b[1], 0))]
    else Group(b[0], b[1], b[2]) + Unpadded(b[3..])
  }

  function Group(x: Byte, y: Byte, z: Byte): string {
    [Symbol(First(x)), Symbol(Second(x, y)), Symbol(Third(y, z)), Symbol(Fourth(z))]
  }

  /** The encoding of RFC 4648: groups of four characters, the last one padded. */
  function Encode(b: seq<Byte>): string {
    Unpadded(b) + if |b| % 3 == 0 then "" else if |b| % 3 == 1 then "==" else "="
  }

  lemma {:induction false} UnpaddedEncoded(b: seq<Byte>)
    ensures Encoded(Unpadded(b)) && '=' !in Unpadded(b)
    decreases |b|
  {
    hide Symbol, Position, First, Second, Third, Fourth;
    forall p: Sextet ensures Position(Symbol(p)) >= 0 && Symbol(p) != '=' {
      SymbolPosition(p);
    }
    if |b| >= 3 { UnpaddedEncoded(b[3..]); }
  }

  lemma Bytes1(s: string, rest: nat, bits: nat, p: Sextet, tail: string)
    requires s == [Symbol(p)] + tail && Encoded(tail) && bits in {0, 2, 4, 6} && rest < Power(bits)
    ensures Encoded(s)
    ensures var joined := rest * 64 + p;
            Bytes(s, rest, bits) ==
            if bits == 0 then Bytes(tail, joined, 6)
            else
              [Delivered(joined, bits)] + Bytes(tail, Left(joined, bits), bits - 2)
  {
    SymbolPosition(p);
    hide Symbol, Position;
    forall i | 0 <= i < |s| ensures Position(s[i]) >= 0 {
      if i > 0 { assert s[i] == tail[i - 1]; }
    }
    assert s[1..] == tail;
  }

  lemma Rejoined(x: Byte, y: Byte, z: Byte)
    ensures Delivered(First(x) * 64 + Second(x, y), 6) == x && Left(First(x) * 64 + Second(x, y), 6) == High4(y)
    ensures Delivered(High4(y) * 64 + Third(y, z), 4) == y && Left(High4(y) * 64 + Third(y, z), 4) == High2(z)
    ensures Delivered(High2(z) * 64 + Fourth(z), 2) == z && Left(High2(z) * 64 + Fourth(z), 2) == 0
    ensures High4(0) == 0 && High2(0) == 0
  {
    DividesBy16(First(x) * 64 + Second(x, y), x, y / 16);
    DividesBy4(y / 16 * 64 + Third(y, z), y, z / 64);
  }

  lemma GroupIs(x: Byte, y: Byte, z: Byte, tail: string)
    ensures Group(x, y, z) + tail ==
            [Symbol(First(x))] + ([Symbol(Second(x, y))] + ([Symbol(Third(y, z))] + ([Symbol(Fourth(z))] + tail)))
  {
    hide Symbol, First, Second, Third, Fourth;
  }

  lemma Powers()
    ensures Power(0) == 1 && Power(2) == 4 && Power(4) == 16 && Power(6) == 64
  {
  }

  lemma GroupDecodes(x: Byte, y: Byte, z: Byte, tail: string)
    requires Encoded(tail)
    ensures Encoded(Group(x, y, z) + tail)
    ensures Bytes(Group(x, y, z) + tail, 0, 0) == [x, y, z] + Bytes(tail, 0, 0)
  {
    hide *;
    GroupIs(x, y, z, tail);
    Rejoined(x, y, z);
    Powers();
    var s3 := [Symbol(Fourth(z))] + tail;
    var s2 := [Symbol(Third(y, z))] + s3;
    var s1 := [Symbol(Second(x, y))] + s2;
    Bytes1(s3, High2(z), 2, Fourth(z), tail);
    Bytes1(s2, High4(y), 4, Third(y, z), s3);
    Bytes1(s1, First(x), 6, Second(x, y), s2);
    Bytes1([Symbol(First(x))] + s1, 0, 0, First(x), s1);
  }

  lemma ShortIs(x: Byte, y: Byte)
    ensures Unpadded([x]) == [Symbol(First(x))] + ([Symbol(Second(x, 0))] + "")
    ensures Unpadded([x, y]) == [Symbol(First(x))] + ([Symbol(Second(x, y))] + ([Symbol(Third(y, 0))] + ""))
    ensures Encoded("")
  {
    hide Symbol, First, Second, Third, Fourth;
  }

  lemma LastGroupDecodes(x: Byte, y: Byte)
    ensures Encoded(Unpadded([x])) && Bytes(Unpadded([x]), 0, 0) == [x]
    ensures Encoded(Unpadded([x, y])) && Bytes(Unpadded([x, y]), 0, 0) == [x, y]
  {
    hide *;
    ShortIs(x, y);
    Rejoined(x, y, 0);
    Rejoined(x, 0, 0);
    Powers();
    NoBytes(0, 4);
    NoBytes(0, 2);
    var s2 := [Symbol(Third(y, 0))] + "";
    var s1 := [Symbol(Second(x, y))] + s2;
    Bytes1(s2, High4(y), 4, Third(y, 0), "");
    Bytes1(s1, First(x), 6, Second(x, y), s2);
    Bytes1([Symbol(First(x))] + s1, 0, 0, First(x), s1);
    var t1 := [Symbol(Second(x, 0))] + "";
    Bytes1(t1, First(x), 6, Second(x, 0), "");
    Bytes1([Symbol(First(x))] + t1, 0, 0, First(x), t1);
  }

  lemma {:induction false} UnpaddedDecodes(b: seq<Byte>)
    ensures Encoded(Unpadded(b)) && Bytes(Unpadded(b), 0, 0) == b
    decreases |b|
  {
    hide Symbol, Bytes, Group;
    if b == [] {
      NoBytes(0, 0);
    } else if |b| < 3 {
      LastGroupDecodes(b[0], b[|b| - 1]);
      assert b == if |b| == 1 then [b[0]] else [b[0], b[|b| - 1]];
    } else {
      UnpaddedDecodes(b[3..]);
      GroupDecodes(b[0], b[1], b[2], Unpadded(b[3..]));
      assert b == [b[0], b[1], b[2]] + b[3..];
    }
  }

  /** Decoding inverts the encoding, for every sequence of bytes. */
  lemma DecodeEncode(b: seq<Byte>)
    ensures Decoded(Encode(b)) == b
  {
    hide Bytes, Unpadded, Payload;
    UnpaddedEncoded(b);
    UnpaddedDecodes(b);
    PayloadEnd(Encode(b), |Unpadded(b)|);
    assert Encode(b)[..|Unpadded(b)|] == Unpadded(b);
  }
}
