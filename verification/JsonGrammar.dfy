// What the recursive-descent parser computes, as functions of the text, the
// cursor and the events emitted so far. The cursor behind a failed parse is
// not part of the result.

module JsonGrammar {
  import opened Bytes
  import opened JsonTypes
  import opened JsonScan

  predicate IsSpace(c: byte) { c == SPACE || c == LF || c == CR || c == TAB }

  function SkipSpace(t: bytes, p: nat): (q: nat)
    ensures p <= q && !IsSpace(Peek(t, q))
    ensures p <= |t| ==> q <= |t|
    decreases Left(t, p)
  {
    if IsSpace(Peek(t, p)) then SkipSpace(t, p + 1) else p
  }

  // The letters that must follow the first letter of a literal.
  function ScanLetters(t: bytes, p: nat, rest: bytes): (r: Scan<()>)
    ensures r.Scanned? ==> r.pos == p + |rest|
    decreases |rest|
  {
    if rest == [] then Scanned(p, ())
    else if Peek(t, p) != rest[0] then Bad(ValueInvalid, p)
    else ScanLetters(t, p + 1, rest[1..])
  }

  const ULL: bytes := [117, 108, 108]
  const RUE: bytes := [114, 117, 101]
  const ALSE: bytes := [97, 108, 115, 101]

  // The outcome of a token: its event is emitted when it was scanned.
  function Emit<T>(r: Scan<T>, e: T -> Event, log: Log): (o: Out)
    ensures o.Ok? == r.Scanned?
    ensures o.Ok? ==> o.pos == r.pos
  {
    match r
    case Scanned(q, v) => Ok(q, log + [e(v)])
    case Bad(c, o) => Err(c, o, log)
  }

  function MemberName(t: bytes, p: nat, log: Log): (o: Out)
    ensures o.Ok? ==> p < o.pos
  {
    Emit(ScanString(t, p), s => Key(s), log)
  }

  predicate StartsContainer(c: byte) { c == LBRACE || c == LBRACKET }

  // A value that is no object and no array.
  function ScalarValue(t: bytes, p: nat, log: Log): (o: Out)
    requires !StartsContainer(Peek(t, p))
    ensures o.Ok? ==> p < o.pos
  {
    var c := Peek(t, p);
    if c == 110 then Emit(ScanLetters(t, p + 1, ULL), _ => Null, log)
    else if c == 116 then Emit(ScanLetters(t, p + 1, RUE), _ => Bool(true), log)
    else if c == 102 then Emit(ScanLetters(t, p + 1, ALSE), _ => Bool(false), log)
    else if c == QUOTE then Emit(ScanString(t, p), s => String(s), log)
    else Emit(ScanNumber(t, p), e => e, log)
  }

  function Value(t: bytes, p: nat, log: Log): (o: Out)
    ensures o.Ok? ==> p < o.pos
    decreases Left(t, p), 0
  {
    var c := Peek(t, p);
    if c == LBRACE then ObjectBody(t, SkipSpace(t, p + 1), log + [StartObject])
    else if c == LBRACKET then ArrayBody(t, SkipSpace(t, p + 1), log + [StartArray])
    else ScalarValue(t, p, log)
  }

  // Behind '[' and white space.
  function ArrayBody(t: bytes, p: nat, log: Log): (o: Out)
    ensures o.Ok? ==> p < o.pos
    decreases Left(t, p), 2
  {
    if Peek(t, p) == RBRACKET then Ok(p + 1, log + [EndArray(0)])
    else Elements(t, p, 0, log)
  }

  // Where an element must stand; n elements came before it.
  function Elements(t: bytes, p: nat, n: nat, log: Log): (o: Out)
    ensures o.Ok? ==> p < o.pos
    decreases Left(t, p), 1
  {
    match Value(t, p, log)
    case Err(c, o, l) => Err(c, o, l)
    case Ok(q, l) => ElementTail(t, SkipSpace(t, q), n + 1, l)
  }

  // Behind the n-th element and white space.
  function ElementTail(t: bytes, p: nat, n: nat, log: Log): (o: Out)
    ensures o.Ok? ==> p < o.pos
    decreases Left(t, p), 0
  {
    if Peek(t, p) == COMMA then Elements(t, SkipSpace(t, p + 1), n, log)
    else if Peek(t, p) == RBRACKET then Ok(p + 1, log + [EndArray(n)])
    else Err(ArrayMissCommaOrSquareBracket, p + 1, log)
  }

  // Behind '{' and white space.
  function ObjectBody(t: bytes, p: nat, log: Log): (o: Out)
    ensures o.Ok? ==> p < o.pos
    decreases Left(t, p), 2
  {
    if Peek(t, p) == RBRACE then Ok(p + 1, log + [EndObject(0)])
    else Members(t, p, 0, log)
  }

  // Where a member name must stand; n members came before it.
  function Members(t: bytes, p: nat, n: nat, log: Log): (o: Out)
    ensures o.Ok? ==> p < o.pos
    decreases Left(t, p), 1
  {
    if Peek(t, p) != QUOTE then Err(ObjectMissName, p, log)
    else
      match MemberName(t, p, log)
      case Err(c, o, l) => Err(c, o, l)
      case Ok(q, l) => MemberColon(t, SkipSpace(t, q), n, l)
  }

  // Behind a member name and white space.
  function MemberColon(t: bytes, p: nat, n: nat, log: Log): (o: Out)
    ensures o.Ok? ==> p < o.pos
    decreases Left(t, p), 2
  {
    if Peek(t, p) != COLON then Err(ObjectMissColon, p + 1, log)
    else MemberValue(t, SkipSpace(t, p + 1), n, log)
  }

  // Behind a colon and white space.
  function MemberValue(t: bytes, p: nat, n: nat, log: Log): (o: Out)
    ensures o.Ok? ==> p < o.pos
    decreases Left(t, p), 1
  {
    match Value(t, p, log)
    case Err(c, o, l) => Err(c, o, l)
    case Ok(q, l) => MemberTail(t, SkipSpace(t, q), n + 1, l)
  }

  // Behind the n-th member and white space.
  function MemberTail(t: bytes, p: nat, n: nat, log: Log): (o: Out)
    ensures o.Ok? ==> p < o.pos
    decreases Left(t, p), 0
  {
    if Peek(t, p) == COMMA then Members(t, SkipSpace(t, p + 1), n, log)
    else if Peek(t, p) == RBRACE then Ok(p + 1, log + [EndObject(n)])
    else Err(ObjectMissCommaOrCurlyBracket, p + 1, log)
  }

  // Behind the root value: only white space may follow.
  function DocumentEnd(t: bytes, p: nat, log: Log): Out {
    var q := SkipSpace(t, p);
    if Peek(t, q) != NUL then Err(DocumentRootNotSingular, q, log) else Ok(q, log)
  }

  // A whole text.
  function ParsedDocument(t: bytes): Out {
    var p := SkipSpace(t, 0);
    if Peek(t, p) == NUL then Err(DocumentEmpty, p, [])
    else
      match Value(t, p, [])
      case Err(c, o, l) => Err(c, o, l)
      case Ok(q, l) => DocumentEnd(t, q, l)
  }
}
