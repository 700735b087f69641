/** UTF-8 (RFC 3629): encoding by section 3, well-formed sequences by section 4. */
module Utf8 {

  type Byte = b: int | 0 <= b < 256

  predicate IsSurrogate(r: int) {
    0xD800 <= r <= 0xDFFF
  }

  /** A Unicode scalar value. */
  type Rune = r: int | 0 <= r <= 0x10FFFF && !(0xD800 <= r <= 0xDFFF)

  /** `utf8.RuneLen`: -1 for what has no encoding. */
  function RuneLen(r: int): (n: int)
    ensures n == -1 || 1 <= n <= 4
  {
    if r < 0 then -1
    else if r < 0x80 then 1
    else if r < 0x800 then 2
    else if IsSurrogate(r) then -1
    else if r < 0x10000 then 3
    else if r <= 0x10FFFF then 4
    else -1
  }

  function Encode(r: Rune): (bytes: seq<Byte>)
    ensures |bytes| == RuneLen(r)
  {
    if r < 0x80 then [r]
    else if r < 0x800 then [0xC0 + r / 0x40, 0x80 + r % 0x40]
    else if r < 0x10000 then [0xE0 + r / 0x1000, 0x80 + r / 0x40 % 0x40, 0x80 + r % 0x40]
    else [0xF0 + r / 0x40000, 0x80 + r / 0x1000 % 0x40, 0x80 + r / 0x40 % 0x40, 0x80 + r % 0x40]
  }

  function EncodeAll(s: seq<Rune>): seq<Byte> {
    if s == [] then [] else Encode(s[0]) + EncodeAll(s[1..])
  }

  predicate Tail(b: Byte) {
    0x80 <= b <= 0xBF
  }

  /** The length of the well-formed character at the front, or 0. */
  function FrontLen(b: seq<Byte>): (n: nat)
    ensures n <= |b|
  {
    if |b| >= 1 && b[0] <= 0x7F then 1
    else if |b| >= 2 && 0xC2 <= b[0] <= 0xDF && Tail(b[1]) then 2
    else if |b| >= 3 && b[0] == 0xE0 && 0xA0 <= b[1] <= 0xBF && Tail(b[2]) then 3
    else if |b| >= 3 && 0xE1 <= b[0] <= 0xEC && Tail(b[1]) && Tail(b[2]) then 3
    else if |b| >= 3 && b[0] == 0xED && 0x80 <= b[1] <= 0x9F && Tail(b[2]) then 3
    else if |b| >= 3 && 0xEE <= b[0] <= 0xEF && Tail(b[1]) && Tail(b[2]) then 3
    else if |b| >= 4 && b[0] == 0xF0 && 0x90 <= b[1] <= 0xBF && Tail(b[2]) && Tail(b[3]) then 4
    else if |b| >= 4 && 0xF1 <= b[0] <= 0xF3 && Tail(b[1]) && Tail(b[2]) && Tail(b[3]) then 4
    else if |b| >= 4 && b[0] == 0xF4 && 0x80 <= b[1] <= 0x8F && Tail(b[2]) && Tail(b[3]) then 4
    else 0
  }

  /** The code point of the character at the front. */
  function FrontRune(b: seq<Byte>): int
    requires FrontLen(b) > 0
  {
    var n, b0 := FrontLen(b), b[0] as int;
    if n == 1 then b0
    else if n == 2 then (b0 - 0xC0) * 0x40 + TailBits(b, 1)
    else if n == 3 then (b0 - 0xE0) * 0x1000 + TailBits(b, 1) * 0x40 + TailBits(b, 2)
    else (b0 - 0xF0) * 0x40000 + TailBits(b, 1) * 0x1000 + TailBits(b, 2) * 0x40 + TailBits(b, 3)
  }

  function TailBits(b: seq<Byte>, i: nat): int
    requires i < |b|
  {
    b[i] as int - 0x80
  }

  /** A byte sequence that is UTF-8 throughout. */
  predicate Valid(b: seq<Byte>) {
    b == [] || (FrontLen(b) > 0 && Valid(b[FrontLen(b)..]))
  }

  /** An encoded code point is read back, whatever follows it. */
  lemma FrontOfEncoded(r: Rune, rest: seq<Byte>)
    ensures FrontLen(Encode(r) + rest) == |Encode(r)| && FrontRune(Encode(r) + rest) == r
  {
    if r < 0x80 { Front1(r, rest); }
    else if r < 0x800 { Front2(r, rest); }
    else if r < 0x10000 { Front3(r, rest); }
    else { Front4(r, rest); }
  }

  lemma Front1(r: Rune, rest: seq<Byte>)
    requires r < 0x80
    ensures FrontLen(Encode(r) + rest) == 1 && FrontRune(Encode(r) + rest) == r
  {
  }

  lemma Front2(r: Rune, rest: seq<Byte>)
    requires 0x80 <= r < 0x800
    ensures FrontLen(Encode(r) + rest) == 2 && FrontRune(Encode(r) + rest) == r
  {
  }

  lemma Front3(r: Rune, rest: seq<Byte>)
    requires 0x800 <= r < 0x10000
    ensures FrontLen(Encode(r) + rest) == 3 && FrontRune(Encode(r) + rest) == r
  {
    var b := Encode(r) + rest;
    assert b[0] == 0xE0 + r / 0x1000 && b[1] == 0x80 + r / 0x40 % 0x40 && b[2] == 0x80 + r % 0x40;
    assert r / 0x40 == r / 0x1000 * 0x40 + r / 0x40 % 0x40;
  }

  lemma Front4(r: Rune, rest: seq<Byte>)
    requires 0x10000 <= r
    ensures FrontLen(Encode(r) + rest) == 4 && FrontRune(Encode(r) + rest) == r
  {
    var b := Encode(r) + rest;
    assert b[0] == 0xF0 + r / 0x40000 && b[1] == 0x80 + r / 0x1000 % 0x40;
    assert b[2] == 0x80 + r / 0x40 % 0x40 && b[3] == 0x80 + r % 0x40;
    assert r / 0x40 == r / 0x1000 * 0x40 + r / 0x40 % 0x40;
    assert r / 0x1000 == r / 0x40000 * 0x40 + r / 0x1000 % 0x40;
  }

  lemma ValidPrepend(r: Rune, rest: seq<Byte>)
    requires Valid(rest)
    ensures Valid(Encode(r) + rest)
  {
    FrontOfEncoded(r, rest);
    assert (Encode(r) + rest)[|Encode(r)|..] == rest;
  }

  /** Within one character only a one-byte one holds ASCII. */
  lemma NoAsciiInside(b: seq<Byte>, j: nat)
    requires j < FrontLen(b) && (j > 0 || FrontLen(b) > 1)
    ensures b[j] >= 0x80
  {
  }
}
