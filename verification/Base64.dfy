/** Base64 as in section 4 of RFC 4648, padded; decoding accepts canonical text only. */
module Base64 {
  import opened Wrappers

  type Byte = b: int | 0 <= b < 256
  type Digit = d: int | 0 <= d < 64

  function ToChar(d: Digit): char {
    if d < 26 then 'A' + d as char
    else if d < 52 then 'a' + (d - 26) as char
    else if d < 62 then '0' + (d - 52) as char
    else if d == 62 then '+'
    else '/'
  }

  function FromChar(c: char): Option<Digit> {
    if 'A' <= c <= 'Z' then Some((c - 'A') as int)
    else if 'a' <= c <= 'z' then Some((c - 'a') as int + 26)
    else if '0' <= c <= '9' then Some((c - '0') as int + 52)
    else if c == '+' then Some(62)
    else if c == '/' then Some(63)
    else None
  }

  lemma DigitsAreChars(d: Digit, c: char)
    ensures FromChar(c) == Some(d) <==> c == ToChar(d)
    ensures ToChar(d) != '='
  {
  }

  /** The letters, then the small ones, then the digits, each in their order, then plus and slash. */
  lemma Alphabet()
    ensures ToChar(0) == 'A' && ToChar(25) == 'Z' && ToChar(26) == 'a' && ToChar(51) == 'z'
    ensures ToChar(52) == '0' && ToChar(61) == '9' && ToChar(62) == '+' && ToChar(63) == '/'
    ensures forall d: int :: 0 <= d < 61 && d != 25 && d != 51 ==> ToChar(d + 1) as int == ToChar(d) as int + 1
  {
  }

  /** The four digits of three bytes. */
  function Digits(a: Byte, b: Byte, c: Byte): (Digit, Digit, Digit, Digit) {
    (a / 4, a % 4 * 16 + b / 16, b % 16 * 4 + c / 64, c % 64)
  }

  /** The three bytes of four digits. */
  function Bytes(w: Digit, x: Digit, y: Digit, z: Digit): (Byte, Byte, Byte) {
    (w * 4 + x / 16, x % 16 * 16 + y / 4, y % 4 * 64 + z)
  }

  lemma Low4(high: nat, low: nat)
    requires low < 4
    ensures (high * 4 + low) / 4 == high && (high * 4 + low) % 4 == low
  {
  }

  lemma Low16(high: nat, low: nat)
    requires low < 16
    ensures (high * 16 + low) / 16 == high && (high * 16 + low) % 16 == low
  {
  }

  lemma Low64(high: nat, low: nat)
    requires low < 64
    ensures (high * 64 + low) / 64 == high && (high * 64 + low) % 64 == low
  {
  }

  lemma BytesOfDigits(a: Byte, b: Byte, c: Byte)
    ensures var (w, x, y, z) := Digits(a, b, c); Bytes(w, x, y, z) == (a, b, c)
  {
    Low16(a % 4, b / 16);
    Low4(b % 16, c / 64);
  }

  lemma AreDigits(a: Byte, b: Byte, c: Byte)
    ensures Digits(a, b, c) == (a / 4, a % 4 * 16 + b / 16, b % 16 * 4 + c / 64, c % 64)
  {
  }

  lemma AreBytes(w: Digit, x: Digit, y: Digit, z: Digit)
    ensures Bytes(w, x, y, z) == (w * 4 + x / 16, x % 16 * 16 + y / 4, y % 4 * 64 + z)
  {
  }

  lemma DigitsOfBytes(w: Digit, x: Digit, y: Digit, z: Digit)
    ensures var (a, b, c) := Bytes(w, x, y, z); Digits(a, b, c) == (w, x, y, z)
  {
    hide Digits, Bytes;
    var a, b, c := w * 4 + x / 16, x % 16 * 16 + y / 4, y % 4 * 64 + z;
    Low4(w, x / 16);
    Low16(x % 16, y / 4);
    Low64(y % 4, z);
    assert a % 4 * 16 + b / 16 == x && b % 16 * 4 + c / 64 == y;
    AreDigits(a, b, c);
    AreBytes(w, x, y, z);
  }

  function Encode(bytes: seq<Byte>): string {
    if |bytes| == 0 then ""
    else if |bytes| == 1 then
      var (w, x, _, _) := Digits(bytes[0], 0, 0);
      [ToChar(w), ToChar(x), '=', '=']
    else if |bytes| == 2 then
      var (w, x, y, _) := Digits(bytes[0], bytes[1], 0);
      [ToChar(w), ToChar(x), ToChar(y), '=']
    else
      var (w, x, y, z) := Digits(bytes[0], bytes[1], bytes[2]);
      [ToChar(w), ToChar(x), ToChar(y), ToChar(z)] + Encode(bytes[3..])
  }

  lemma GroupText(a: Byte, b: Byte, c: Byte)
    ensures var (w, x, y, z) := Digits(a, b, c); Encode([a, b, c]) == [ToChar(w), ToChar(x), ToChar(y), ToChar(z)]
    ensures var (w, x, _, _) := Digits(a, 0, 0); Encode([a]) == [ToChar(w), ToChar(x), '=', '=']
    ensures var (w, x, y, _) := Digits(a, b, 0); Encode([a, b]) == [ToChar(w), ToChar(x), ToChar(y), '=']
  {
    hide Digits, ToChar;
    assert [a, b, c][3..] == [] && Encode([]) == "";
  }

  /** Encodings listed in section 10 of RFC 4648. */
  lemma TestVectors()
    ensures Encode([0x66]) == "Zg==" && Encode([0x66, 0x6F]) == "Zm8=" && Encode([0x66, 0x6F, 0x6F]) == "Zm9v"
  {
    GroupText(0x66, 0x6F, 0x6F);
    hide Encode;
  }

  /** The bytes of a final group; bits beyond them must be zero. */
  function DecodeLast(w: Digit, x: Digit, third: char, fourth: char): Option<seq<Byte>> {
    if third == '=' && fourth == '=' then
      if x % 16 == 0 then Some([Bytes(w, x, 0, 0).0]) else None
    else
      match FromChar(third)
      case None => None
      case Some(y) =>
        if fourth == '=' then
          var (a, b, _) := Bytes(w, x, y, 0);
          if y % 4 == 0 then Some([a, b]) else None
        else
          match FromChar(fourth)
          case None => None
          case Some(z) =>
            var (a, b, c) := Bytes(w, x, y, z);
            Some([a, b, c])
  }

  function Decode(text: string): Option<seq<Byte>> {
    if text == "" then Some([])
    else if |text| < 4 then None
    else
      var w, x := FromChar(text[0]), FromChar(text[1]);
      if w.None? || x.None? then None
      else if |text| == 4 then DecodeLast(w.value, x.value, text[2], text[3])
      else
        var y, z, rest := FromChar(text[2]), FromChar(text[3]), Decode(text[4..]);
        if y.None? || z.None? || rest.None? then None
        else
          var (a, b, c) := Bytes(w.value, x.value, y.value, z.value);
          Some([a, b, c] + rest.value)
  }

  lemma {:induction false} DecodeOfEncode(bytes: seq<Byte>)
    ensures Decode(Encode(bytes)) == Some(bytes)
  {
    hide FromChar, ToChar, Digits, Bytes;
    if |bytes| == 1 {
      GroupDecodes(bytes[0], 0, 0);
      assert bytes == [bytes[0]];
    } else if |bytes| == 2 {
      GroupDecodes(bytes[0], bytes[1], 0);
      assert bytes == [bytes[0], bytes[1]];
    } else if |bytes| >= 3 {
      GroupDecodes(bytes[0], bytes[1], bytes[2]);
      var (w, x, y, z) := Digits(bytes[0], bytes[1], bytes[2]);
      var rest := Encode(bytes[3..]);
      DecodeOfEncode(bytes[3..]);
      assert ([ToChar(w), ToChar(x), ToChar(y), ToChar(z)] + rest)[4..] == rest;
      assert bytes == bytes[..3] + bytes[3..] && bytes[..3] == [bytes[0], bytes[1], bytes[2]];
      if rest == "" {
        EmptyEncoding(bytes[3..]);
        assert bytes == [bytes[0], bytes[1], bytes[2]];
        assert Encode(bytes) == [ToChar(w), ToChar(x), ToChar(y), ToChar(z)];
      }
    }
  }

  lemma EmptyEncoding(bytes: seq<Byte>)
    requires Encode(bytes) == ""
    ensures bytes == []
  {
  }

  lemma GroupDecodes(a: Byte, b: Byte, c: Byte)
    ensures var (w, x, y, z) := Digits(a, b, c);
            && FromChar(ToChar(w)) == Some(w) && FromChar(ToChar(x)) == Some(x)
            && FromChar(ToChar(y)) == Some(y) && FromChar(ToChar(z)) == Some(z)
            && ToChar(y) != '=' && ToChar(z) != '='
            && Bytes(w, x, y, z) == (a, b, c)
            && (c == 0 ==> y % 4 == 0 && z == 0) && (b == 0 && c == 0 ==> x % 16 == 0 && y == 0)
  {
    var (w, x, y, z) := Digits(a, b, c);
    BytesOfDigits(a, b, c);
    DigitsAreChars(w, ToChar(w));
    DigitsAreChars(x, ToChar(x));
    DigitsAreChars(y, ToChar(y));
    DigitsAreChars(z, ToChar(z));
  }

  lemma GroupEncodes(w: Digit, x: Digit, y: Digit, z: Digit)
    ensures var (a, b, c) := Bytes(w, x, y, z);
            && Digits(a, b, c) == (w, x, y, z)
            && (y % 4 == 0 && z == 0 ==> c == 0) && (x % 16 == 0 && y == 0 ==> b == 0)
  {
    DigitsOfBytes(w, x, y, z);
  }

  /** No two texts decode to the same bytes. */
  lemma {:induction false} EncodeOfDecode(text: string)
    requires Decode(text).Some?
    ensures Encode(Decode(text).value) == text
  {
    if text != "" {
      var w, x := FromChar(text[0]).value, FromChar(text[1]).value;
      DigitsAreChars(w, text[0]);
      DigitsAreChars(x, text[1]);
      if |text| == 4 {
        LastEncodes(w, x, text[2], text[3]);
      } else {
        EncodeOfDecode(text[4..]);
        GroupThen(text);
      }
    }
  }

  lemma GroupThen(text: string)
    requires |text| > 4 && Decode(text).Some?
    ensures Encode(Decode(text).value) == text[..4] + Encode(Decode(text[4..]).value)
  {
    var w, x := FromChar(text[0]).value, FromChar(text[1]).value;
    var y, z := FromChar(text[2]).value, FromChar(text[3]).value;
    DigitsAreChars(w, text[0]);
    DigitsAreChars(x, text[1]);
    DigitsAreChars(y, text[2]);
    DigitsAreChars(z, text[3]);
    GroupEncodes(w, x, y, z);
    hide FromChar, ToChar, Digits, Bytes;
    var (a, b, c) := Bytes(w, x, y, z);
    var rest := Decode(text[4..]).value;
    assert Decode(text).value == [a, b, c] + rest;
    assert Decode(text).value[3..] == rest;
    assert text[..4] == [text[0], text[1], text[2], text[3]];
  }

  lemma LastEncodes(w: Digit, x: Digit, third: char, fourth: char)
    requires DecodeLast(w, x, third, fourth).Some?
    ensures Encode(DecodeLast(w, x, third, fourth).value) == [ToChar(w), ToChar(x), third, fourth]
  {
    if third == '=' && fourth == '=' {
      GroupEncodes(w, x, 0, 0);
    } else {
      var y := FromChar(third).value;
      DigitsAreChars(y, third);
      if fourth == '=' {
        GroupEncodes(w, x, y, 0);
      } else {
        var z := FromChar(fourth).value;
        DigitsAreChars(z, fourth);
        GroupEncodes(w, x, y, z);
        assert Encode([]) == "";
      }
    }
  }
}
