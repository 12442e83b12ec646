/** The texts accepted as UTF-8 are exactly the encodings of sequences of Unicode scalar values (RFC 3629, section 3). */
module Utf8Texts {
  import opened Base64
  import opened BackupCells

  type Scalar = c: int | 0 <= c < 0xD800 || 0xE000 <= c < 0x110000

  function Tail(n: int): Byte
    requires 0 <= n < 64
  {
    0x80 + n
  }

  function Encoded(c: Scalar): seq<Byte> {
    if c < 0x80 then [c]
    else if c < 0x800 then [0xC0 + c / 64, Tail(c % 64)]
    else if c < 0x10000 then [0xE0 + c / 4096, Tail(c / 64 % 64), Tail(c % 64)]
    else [0xF0 + c / 262144, Tail(c / 4096 % 64), Tail(c / 64 % 64), Tail(c % 64)]
  }

  function EncodedAll(cs: seq<Scalar>): seq<Byte> {
    if cs == [] then [] else Encoded(cs[0]) + EncodedAll(cs[1..])
  }

  lemma EncodedIsChar(c: Scalar, more: seq<Byte>)
    ensures CharLength(Encoded(c) + more) == |Encoded(c)| > 0
  {
    if c >= 0x10000 {
      FourAreChar(c, more);
    } else if c >= 0x800 {
      ThreeAreChar(c, more);
    } else if c >= 0x80 {
      assert (Encoded(c) + more)[1] == Tail(c % 64);
    }
  }

  lemma ThreeAreChar(c: Scalar, more: seq<Byte>)
    requires 0x800 <= c < 0x10000
    ensures CharLength(Encoded(c) + more) == |Encoded(c)| == 3
  {
    var b := Encoded(c) + more;
    assert b[0] == 0xE0 + c / 4096 && b[1] == Tail(c / 64 % 64) && b[2] == Tail(c % 64);
  }

  lemma FourAreChar(c: Scalar, more: seq<Byte>)
    requires 0x10000 <= c
    ensures CharLength(Encoded(c) + more) == |Encoded(c)| == 4
  {
    var b := Encoded(c) + more;
    assert b[0] == 0xF0 + c / 262144 && b[1] == Tail(c / 4096 % 64);
    assert b[2] == Tail(c / 64 % 64) && b[3] == Tail(c % 64);
  }

  /** The character a well-formed sequence stands for. */
  lemma CharIsEncoded(b: seq<Byte>) returns (c: Scalar)
    requires CharLength(b) > 0
    ensures Encoded(c) == b[..CharLength(b)]
  {
    var n := CharLength(b);
    if n == 1 {
      c := b[0];
    } else if n == 2 {
      c := Two(b[0], b[1]);
    } else if n == 3 {
      c := Three(b[0], b[1], b[2]);
    } else {
      c := Four(b[0], b[1], b[2], b[3]);
    }
  }

  lemma Two(p: Byte, q: Byte) returns (c: Scalar)
    requires 0xC2 <= p <= 0xDF && 0x80 <= q <= 0xBF
    ensures Encoded(c) == [p, q]
  {
    var high, low := p as int - 0xC0, q as int - 0x80;
    c := high * 64 + low;
    Low64(high, low);
  }

  lemma Three(p: Byte, q: Byte, r: Byte) returns (c: Scalar)
    requires 0xE0 <= p <= 0xEF && 0x80 <= q <= 0xBF && 0x80 <= r <= 0xBF
    requires (p == 0xE0 ==> q >= 0xA0) && (p == 0xED ==> q <= 0x9F)
    ensures Encoded(c) == [p, q, r]
  {
    var high, middle, low := p as int - 0xE0, q as int - 0x80, r as int - 0x80;
    Low64(high * 64 + middle, low);
    Low64(high, middle);
    c := (high * 64 + middle) * 64 + low;
    assert c / 4096 == c / 64 / 64;
  }

  lemma Four(p: Byte, q: Byte, r: Byte, t: Byte) returns (c: Scalar)
    requires 0xF0 <= p <= 0xF4 && 0x80 <= q <= 0xBF && 0x80 <= r <= 0xBF && 0x80 <= t <= 0xBF
    requires (p == 0xF0 ==> q >= 0x90) && (p == 0xF4 ==> q <= 0x8F)
    ensures Encoded(c) == [p, q, r, t]
  {
    var high, second, third, low := p as int - 0xF0, q as int - 0x80, r as int - 0x80, t as int - 0x80;
    Low64((high * 64 + second) * 64 + third, low);
    Low64(high * 64 + second, third);
    Low64(high, second);
    c := ((high * 64 + second) * 64 + third) * 64 + low;
    assert c / 4096 == c / 64 / 64 && c / 262144 == c / 64 / 64 / 64;
  }

  lemma {:induction false} EncodedIsValid(cs: seq<Scalar>)
    ensures ValidUtf8(EncodedAll(cs))
  {
    if cs != [] {
      var more := EncodedAll(cs[1..]);
      EncodedIsValid(cs[1..]);
      EncodedIsChar(cs[0], more);
      hide CharLength, Encoded;
      assert (Encoded(cs[0]) + more)[|Encoded(cs[0])|..] == more;
    }
  }

  lemma {:induction false} ValidIsEncoded(bytes: seq<Byte>) returns (cs: seq<Scalar>)
    requires ValidUtf8(bytes)
    ensures EncodedAll(cs) == bytes
    decreases |bytes|
  {
    cs := [];
    if bytes != [] {
      hide CharLength, Encoded, EncodedAll, ValidUtf8;
      FirstChar(bytes);
      var n := CharLength(bytes);
      Halves(bytes, n);
      var c := CharIsEncoded(bytes);
      var rest := ValidIsEncoded(bytes[n..]);
      cs := [c] + rest;
      EncodedFirst(c, rest);
    }
  }

  lemma FirstChar(bytes: seq<Byte>)
    requires ValidUtf8(bytes) && bytes != []
    ensures 0 < CharLength(bytes) <= |bytes| && ValidUtf8(bytes[CharLength(bytes)..])
  {
    hide CharLength;
  }

  lemma Halves(bytes: seq<Byte>, n: nat)
    requires n <= |bytes|
    ensures bytes == bytes[..n] + bytes[n..]
  {
  }

  lemma EncodedFirst(c: Scalar, rest: seq<Scalar>)
    ensures EncodedAll([c] + rest) == Encoded(c) + EncodedAll(rest)
  {
    hide Encoded;
    assert ([c] + rest)[1..] == rest;
  }

  lemma ValidExactly(bytes: seq<Byte>)
    ensures ValidUtf8(bytes) <==> exists cs :: EncodedAll(cs) == bytes
  {
    if ValidUtf8(bytes) {
      var cs := ValidIsEncoded(bytes);
    }
    if cs :| EncodedAll(cs) == bytes {
      EncodedIsValid(cs);
    }
  }
}
