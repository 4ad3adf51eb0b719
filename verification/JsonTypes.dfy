// The vocabulary shared by the reader, the writer and the document: parse
// errors, handler events and the limits of the integer kinds.

module JsonTypes {
  import opened Bytes

  const TWO31: int := 0x8000_0000
  const TWO32: int := 0x1_0000_0000
  const TWO63: int := 0x8000_0000_0000_0000
  const TWO64: int := 0x1_0000_0000_0000_0000

  newtype uint32 = x: int | 0 <= x < 0x1_0000_0000
  newtype uint64 = x: int | 0 <= x < 0x1_0000_0000_0000_0000

  datatype ErrorCode =
    | DocumentEmpty
    | DocumentRootNotSingular
    | ValueInvalid
    | ObjectMissName
    | ObjectMissColon
    | ObjectMissCommaOrCurlyBracket
    | ArrayMissCommaOrSquareBracket
    | StringUnicodeEscapeInvalidHex
    | StringUnicodeSurrogateInvalid
    | StringEscapeInvalid
    | StringMissQuotationMark
    | NumberTooBig
    | NumberMissFraction
    | NumberMissExponent
    | UnspecificSyntaxError

  // One call of a handler. A double is carried as the text that denotes it.
  datatype Event =
    | Null
    | Bool(b: bool)
    | Int(i: int)
    | Uint(u: int)
    | Int64(i64: int)
    | Uint64(u64: int)
    | Double(lexeme: bytes)
    | String(str: bytes)
    | StartObject
    | Key(name: bytes)
    | EndObject(memberCount: nat)
    | StartArray
    | EndArray(elementCount: nat)

  type Log = seq<Event>

  // What a scanner of one token reports.
  datatype Scan<+T> = Scanned(pos: nat, value: T) | Bad(code: ErrorCode, off: nat)

  // What a parser reports: where it stopped and which events it has emitted.
  datatype Out = Ok(pos: nat, log: Log) | Err(code: ErrorCode, off: nat, log: Log)
}
