/** One database value in a backup payload. */
module BackupCells {
  import opened Wrappers
  import opened Base64

  datatype Error =
    | InvalidIdentifier(name: string)
    | NonUtf8Text
    | InvalidBase64
    | Inconsistent
    | PayloadTooNew(found: int, supported: int)
    | UnknownSchema(version: int)
    | SchemaTooNew(found: int, supported: int)
    | MigrationFailed(version: int)
    | SchemaMismatch(table: string)
    | WidthMismatch(table: string)
    | ConstraintFailed

  predicate Continues(bytes: seq<Byte>, from: nat, n: nat) {
    from + n <= |bytes| && forall i :: from <= i < from + n ==> 0x80 <= bytes[i] <= 0xBF
  }

  /** The length of the well-formed sequence a text begins with (section 4 of RFC 3629), or 0. */
  function CharLength(b: seq<Byte>): (n: nat)
    ensures n <= |b| && n <= 4
  {
    if |b| == 0 then 0
    else if b[0] <= 0x7F then 1
    else if 0xC2 <= b[0] <= 0xDF && Continues(b, 1, 1) then 2
    else if 0xE0 <= b[0] <= 0xEF && Continues(b, 1, 2)
            && (b[0] == 0xE0 ==> b[1] >= 0xA0) && (b[0] == 0xED ==> b[1] <= 0x9F) then 3
    else if 0xF0 <= b[0] <= 0xF4 && Continues(b, 1, 3)
            && (b[0] == 0xF0 ==> b[1] >= 0x90) && (b[0] == 0xF4 ==> b[1] <= 0x8F) then 4
    else 0
  }

  predicate ValidUtf8(bytes: seq<Byte>) {
    bytes == [] || (CharLength(bytes) > 0 && ValidUtf8(bytes[CharLength(bytes)..]))
  }

  /** A text of ASCII characters. */
  function Ascii(s: string): (bytes: seq<Byte>)
    requires forall i :: 0 <= i < |s| ==> s[i] as int < 0x80
    ensures |bytes| == |s| && forall i :: 0 <= i < |s| ==> bytes[i] == s[i] as int
    ensures ValidUtf8(bytes)
  {
    if s == "" then []
    else
      var bytes: seq<Byte> := [s[0] as int] + Ascii(s[1..]);
      assert CharLength(bytes) == 1 && bytes[1..] == Ascii(s[1..]);
      bytes
  }

  /** Text as a program holds it. */
  type Utf8 = bytes: seq<Byte> | ValidUtf8(bytes) witness []

  datatype Value = Null | Integer(i: int) | Real(r: real) | Text(bytes: seq<Byte>) | Blob(blob: seq<Byte>)

  datatype Cell = NullCell | IntCell(i: int) | RealCell(r: real) | TextCell(text: Utf8) | BlobCell(base64: string)

  function FromValue(v: Value): Result<Cell, Error> {
    match v
    case Null => Success(NullCell)
    case Integer(i) => Success(IntCell(i))
    case Real(r) => Success(RealCell(r))
    case Text(t) => if ValidUtf8(t) then Success(TextCell(t)) else Failure(NonUtf8Text)
    case Blob(b) => Success(BlobCell(Encode(b)))
  }

  function IntoValue(c: Cell): Result<Value, Error> {
    match c
    case NullCell => Success(Null)
    case IntCell(i) => Success(Integer(i))
    case RealCell(r) => Success(Real(r))
    case TextCell(t) => Success(Text(t))
    case BlobCell(b) =>
      match Decode(b)
      case Some(bytes) => Success(Blob(bytes))
      case None => Failure(InvalidBase64)
  }

  /** Every value but a text that is not UTF-8 survives a backup as it was. */
  lemma ValueRoundTrip(v: Value)
    ensures FromValue(v).Success? <==> !v.Text? || ValidUtf8(v.bytes)
    ensures FromValue(v).Success? ==> IntoValue(FromValue(v).value) == Success(v)
  {
    hide Encode, Decode, ValidUtf8;
    if v.Blob? {
      DecodeOfEncode(v.blob);
    }
  }

  /** A cell that can be read as a value is the only cell for it. */
  lemma CellRoundTrip(c: Cell)
    requires IntoValue(c).Success?
    ensures FromValue(IntoValue(c).value) == Success(c)
  {
    if c.BlobCell? {
      EncodeOfDecode(c.base64);
    }
  }

  predicate IsWordChar(c: char) {
    'a' <= c <= 'z' || 'A' <= c <= 'Z' || '0' <= c <= '9' || c == '_'
  }

  /** A name that may be used in a generated statement. */
  predicate PlainName(name: string) {
    name != "" && forall i :: 0 <= i < |name| ==> IsWordChar(name[i])
  }
}
