// The table-driven iterative parser as a machine over an explicit stack, and
// the proof that it agrees with the recursive-descent parser on every text.

module JsonIterative {
  import opened Bytes
  import opened JsonTypes
  import opened JsonGrammar

  datatype State =
    | Start | Finish | Error
    | ObjectInitial | MemberKey | KeyValueDelimiter | MemberValueState | MemberDelimiter | ObjectFinish
    | ArrayInitial | Element | ElementDelimiter | ArrayFinish
    | SingleValue

  datatype Token =
    | LeftBracket | RightBracket | LeftCurly | RightCurly | CommaToken | ColonToken
    | StringToken | FalseToken | TrueToken | NullToken | NumberToken

  function Tokenize(c: byte): Token {
    if c == LBRACKET then LeftBracket
    else if c == RBRACKET then RightBracket
    else if c == LBRACE then LeftCurly
    else if c == RBRACE then RightCurly
    else if c == COMMA then CommaToken
    else if c == COLON then ColonToken
    else if c == QUOTE then StringToken
    else if c == 102 then FalseToken
    else if c == 116 then TrueToken
    else if c == 110 then NullToken
    else NumberToken
  }

  predicate IsScalar(k: Token) {
    k.StringToken? || k.FalseToken? || k.TrueToken? || k.NullToken? || k.NumberToken?
  }

  // One row of the table for the states in which a value may start.
  function ValueRow(k: Token, scalar: State): State {
    if k == LeftBracket then ArrayInitial
    else if k == LeftCurly then ObjectInitial
    else if IsScalar(k) then scalar
    else Error
  }

  // The prediction table: current state and lookahead token to new state.
  function Predict(s: State, k: Token): State {
    match s
    case Start => ValueRow(k, SingleValue)
    case ObjectInitial =>
      if k == RightCurly then ObjectFinish else if k == StringToken then MemberKey else Error
    case MemberKey => if k == ColonToken then KeyValueDelimiter else Error
    case KeyValueDelimiter => ValueRow(k, MemberValueState)
    case MemberValueState =>
      if k == RightCurly then ObjectFinish else if k == CommaToken then MemberDelimiter else Error
    case MemberDelimiter => if k == StringToken then MemberKey else Error
    case ArrayInitial => if k == RightBracket then ArrayFinish else ValueRow(k, Element)
    case Element =>
      if k == RightBracket then ArrayFinish else if k == CommaToken then ElementDelimiter else Error
    case ElementDelimiter => ValueRow(k, Element)
    case _ => Error
  }

  // The state to return to and the number of separators seen, for one open container.
  datatype Frame = Frame(ret: State, count: nat)

  datatype Config = Config(state: State, frames: seq<Frame>, pos: nat, log: Log)

  predicate FramesWf(fs: seq<Frame>) {
    && fs != [] && fs[0].ret == Start
    && (forall i :: 0 < i < |fs| ==> fs[i].ret == Element || fs[i].ret == MemberValueState)
  }

  predicate InContainer(s: State) {
    s.ObjectInitial? || s.MemberKey? || s.KeyValueDelimiter? || s.MemberValueState? || s.MemberDelimiter?
    || s.ArrayInitial? || s.Element? || s.ElementDelimiter?
  }

  // The stack matches the nesting, holds the start entry at its bottom and has
  // counted nothing in a container that was only just opened.
  predicate Wf(c: Config) {
    if c.state == Start || c.state == Finish then c.frames == []
    else
      && InContainer(c.state) && FramesWf(c.frames)
      && (c.state == ObjectInitial || c.state == ArrayInitial ==> Top(c.frames).count == 0)
  }

  function Top(fs: seq<Frame>): Frame
    requires fs != []
  {
    fs[|fs| - 1]
  }

  function Rest(fs: seq<Frame>): seq<Frame>
    requires fs != []
  {
    fs[..|fs| - 1]
  }

  datatype StepResult = Next(c: Config) | Fail(code: ErrorCode, off: nat, log: Log)

  // The error that belongs to the state in which no transition was found.
  function SyntaxError(s: State): ErrorCode {
    match s
    case Start => DocumentEmpty
    case Finish => DocumentRootNotSingular
    case ObjectInitial => ObjectMissName
    case MemberDelimiter => ObjectMissName
    case MemberKey => ObjectMissColon
    case MemberValueState => ObjectMissCommaOrCurlyBracket
    case Element => ArrayMissCommaOrSquareBracket
    case _ => UnspecificSyntaxError
  }

  // The state under which a nested container will be continued.
  function ReturnState(src: State): State {
    if src == ArrayInitial || src == ElementDelimiter then Element
    else if src == KeyValueDelimiter then MemberValueState
    else src
  }

  function Landed(n: State): State { if n == Start then Finish else n }

  // Go on in state s behind a token with outcome o.
  function Advance(c: Config, s: State, o: Out): StepResult {
    match o
    case Ok(q, l) => Next(c.(state := s, pos := q, log := l))
    case Err(x, off, l) => Fail(x, off, l)
  }

  predicate Opens(dst: State) { dst == ObjectInitial || dst == ArrayInitial }
  predicate Separates(dst: State) { dst == MemberDelimiter || dst == ElementDelimiter }
  predicate Closes(dst: State) { dst == ObjectFinish || dst == ArrayFinish }

  // A container was entered: the state to return to and a count are pushed.
  function Opened(c: Config, dst: State): Config {
    Config(dst, c.frames + [Frame(ReturnState(c.state), 0)], c.pos + 1,
           c.log + [if dst == ObjectInitial then StartObject else StartArray])
  }

  // A comma was read: the count goes up.
  function Separated(c: Config, dst: State): Config
    requires c.frames != []
  {
    Config(dst, Counted(c.frames), c.pos + 1, c.log)
  }

  // A container was left: the last member or element is counted and the state is restored.
  function Closed(c: Config, dst: State): Config
    requires c.frames != []
  {
    var f := Top(c.frames);
    var n := if c.state == MemberValueState || c.state == Element then f.count + 1 else f.count;
    Config(Landed(f.ret), Rest(c.frames), c.pos + 1,
           c.log + [if dst == ObjectFinish then EndObject(n) else EndArray(n)])
  }

  // One transition on the token under the cursor.
  function Step(t: bytes, c: Config): StepResult
    requires Wf(c)
  {
    var dst := Predict(c.state, Tokenize(Peek(t, c.pos)));
    PredictFrom(c.state, Peek(t, c.pos));
    if dst == Error then Fail(SyntaxError(c.state), c.pos, c.log)
    else if Opens(dst) then Next(Opened(c, dst))
    else if Separates(dst) then Next(Separated(c, dst))
    else if Closes(dst) then Next(Closed(c, dst))
    else if dst == KeyValueDelimiter then Next(c.(state := dst, pos := c.pos + 1))
    else if dst == MemberKey then Advance(c, dst, MemberName(t, c.pos, c.log))
    else Advance(c, if dst == SingleValue then Finish else dst, Value(t, c.pos, c.log))
  }

  predicate ExpectsValue(s: State) {
    s == Start || s == KeyValueDelimiter || s == ArrayInitial || s == ElementDelimiter
  }

  // Which states and bytes each kind of entry of the table belongs to.
  lemma {:induction false} PredictFrom(s: State, c: byte)
    ensures var d := Predict(s, Tokenize(c));
      && d != Start && d != Finish
      && (Opens(d) ==> ExpectsValue(s) && c == if d == ObjectInitial then LBRACE else LBRACKET)
      && (Separates(d) ==> c == COMMA && s == if d == MemberDelimiter then MemberValueState else Element)
      && (d == ObjectFinish ==> c == RBRACE && (s == ObjectInitial || s == MemberValueState))
      && (d == ArrayFinish ==> c == RBRACKET && (s == ArrayInitial || s == Element))
      && (d == KeyValueDelimiter ==> c == COLON && s == MemberKey)
      && (d == MemberKey ==> c == QUOTE && (s == ObjectInitial || s == MemberDelimiter))
      && (d == MemberValueState ==> IsScalar(Tokenize(c)) && s == KeyValueDelimiter)
      && (d == Element ==> IsScalar(Tokenize(c)) && (s == ArrayInitial || s == ElementDelimiter))
      && (d == SingleValue ==> IsScalar(Tokenize(c)) && s == Start)
  {
  }

  // The stack after a separator was counted.
  function Counted(fs: seq<Frame>): seq<Frame>
    requires fs != []
  {
    Rest(fs) + [Frame(Top(fs).ret, Top(fs).count + 1)]
  }

  function Skipped(t: bytes, c: Config): Config { c.(pos := SkipSpace(t, c.pos)) }

  const Initial: Config := Config(Start, [], 0, [])

  // The loop of the iterative parser, from a cursor that stands on no white space.
  function Run(t: bytes, c: Config): Out
    requires Wf(c)
    decreases Left(t, c.pos)
  {
    if Peek(t, c.pos) == NUL then
      if c.state == Finish then Ok(c.pos, c.log) else Err(SyntaxError(c.state), c.pos, c.log)
    else
      StepKeepsShape(t, c);
      match Step(t, c)
      case Fail(x, off, l) => Err(x, off, l)
      case Next(d) => Run(t, Skipped(t, d))
  }

  function IterativeDocument(t: bytes): Out {
    Run(t, Skipped(t, Initial))
  }

  // Every transition consumes text and leaves a stack that matches the nesting.
  lemma {:induction false} StepKeepsShape(t: bytes, c: Config)
    requires Wf(c)
    ensures Step(t, c).Next? ==> Wf(Step(t, c).c) && c.pos < Step(t, c).c.pos
  {
    hide Predict, Tokenize, Value, MemberName, Opened, Separated, Closed, Wf;
    var dst := Predict(c.state, Tokenize(Peek(t, c.pos)));
    PredictFrom(c.state, Peek(t, c.pos));
    if Opens(dst) {
      OpenedWf(c, dst);
    } else if Separates(dst) {
      SeparatedWf(c, dst);
    } else if Closes(dst) {
      ClosedWf(c, dst);
    } else if dst != Error {
      var s := if dst == SingleValue then Finish else dst;
      AdvancedWf(c, s, if dst == MemberKey then MemberName(t, c.pos, c.log) else Value(t, c.pos, c.log));
      AdvancedWf(c, s, Ok(c.pos + 1, c.log));
    }
  }

  lemma {:induction false} SeparatedWf(c: Config, dst: State)
    requires Wf(c) && InContainer(c.state) && Separates(dst)
    ensures c.frames != [] && Wf(Separated(c, dst)) && c.pos < Separated(c, dst).pos
  {
  }

  lemma {:induction false} ClosedWf(c: Config, dst: State)
    requires Wf(c) && InContainer(c.state)
    ensures c.frames != [] && Wf(Closed(c, dst)) && c.pos < Closed(c, dst).pos
  {
  }

  // Behind a token the stack is the same.
  lemma {:induction false} AdvancedWf(c: Config, s: State, o: Out)
    requires Wf(c) && (o.Ok? ==> c.pos < o.pos)
    requires if c.state == Start then s == Finish
             else c.state != Finish && InContainer(s) && s != ObjectInitial && s != ArrayInitial
    ensures Advance(c, s, o).Next? ==> Wf(Advance(c, s, o).c) && c.pos < Advance(c, s, o).c.pos
  {
  }

  lemma {:induction false} OpenedWf(c: Config, dst: State)
    requires Wf(c) && ExpectsValue(c.state) && Opens(dst)
    ensures Wf(Opened(c, dst)) && c.pos < Opened(c, dst).pos
  {
  }

  /* What remains to be done, in recursive-descent terms */

  // What the recursive parser makes of the rest of the innermost container.
  function Pending(t: bytes, c: Config): Out
    requires Wf(c)
  {
    match c.state
    case Start =>
      if Peek(t, c.pos) == NUL then Err(DocumentEmpty, c.pos, c.log)
      else AtRoot(t, Value(t, c.pos, c.log))
    case Finish => DocumentEnd(t, c.pos, c.log)
    case ObjectInitial => ObjectBody(t, c.pos, c.log)
    case MemberKey => MemberColon(t, c.pos, Top(c.frames).count, c.log)
    case KeyValueDelimiter => MemberValue(t, c.pos, Top(c.frames).count, c.log)
    case MemberValueState => MemberTail(t, c.pos, Top(c.frames).count + 1, c.log)
    case MemberDelimiter => Members(t, c.pos, Top(c.frames).count, c.log)
    case ArrayInitial => ArrayBody(t, c.pos, c.log)
    case Element => ElementTail(t, c.pos, Top(c.frames).count + 1, c.log)
    case ElementDelimiter => Elements(t, c.pos, Top(c.frames).count, c.log)
  }

  function AtRoot(t: bytes, o: Out): Out {
    match o
    case Err(c, off, l) => Err(c, off, l)
    case Ok(q, l) => DocumentEnd(t, q, l)
  }

  // The configuration behind a finished container: the enclosing one goes on.
  function Behind(t: bytes, fs: seq<Frame>, pos: nat, log: Log): (c: Config)
    requires FramesWf(fs)
    ensures Wf(c)
  {
    Config(Landed(Top(fs).ret), Rest(fs), SkipSpace(t, pos), log)
  }

  // Goes on in the enclosing containers once the innermost one has outcome o.
  function Unwind(t: bytes, fs: seq<Frame>, o: Out): Out
    requires fs == [] || FramesWf(fs)
    decreases |fs|
  {
    if o.Err? || fs == [] then o
    else Unwind(t, Rest(fs), Pending(t, Behind(t, fs, o.pos, o.log)))
  }

  // What the recursive parser makes of everything a configuration has left.
  function Resume(t: bytes, c: Config): Out
    requires Wf(c)
  {
    Unwind(t, c.frames, Pending(t, c))
  }

  predicate AtBadHex(o: Out) { o.Err? && o.code == StringUnicodeEscapeInvalidHex }

  // Same verdict, same events, and the same end of an accepted text. A bad
  // hexadecimal digit, behind which the code may go astray, is the same one.
  predicate Agree(a: Out, b: Out) {
    && a.log == b.log
    && a.Ok? == b.Ok?
    && (a.Ok? ==> a.pos == b.pos)
    && (AtBadHex(a) || AtBadHex(b) ==> a == b)
  }

  lemma {:induction false} SkipTwice(t: bytes, p: nat)
    ensures SkipSpace(t, SkipSpace(t, p)) == SkipSpace(t, p)
  {
  }

  // The rest behind a value with outcome o.
  function AfterValue(t: bytes, c: Config, o: Out): Out
    requires Wf(c) && ExpectsValue(c.state)
  {
    if o.Err? then o
    else if c.state == Start then DocumentEnd(t, o.pos, o.log)
    else
      var q := SkipSpace(t, o.pos);
      var n := Top(c.frames).count + 1;
      if c.state == KeyValueDelimiter then MemberTail(t, q, n, o.log) else ElementTail(t, q, n, o.log)
  }

  // Where a value may start, the rest is that value and what follows it.
  lemma {:induction false} PendingValue(t: bytes, c: Config)
    requires Wf(c) && ExpectsValue(c.state)
    requires c.state == Start ==> Peek(t, c.pos) != NUL
    requires c.state == ArrayInitial ==> Peek(t, c.pos) != RBRACKET
    ensures Pending(t, c) == AfterValue(t, c, Value(t, c.pos, c.log))
  {
    hide Value, MemberTail, ElementTail, DocumentEnd;
    if c.state == ArrayInitial {
      assert Pending(t, c) == Elements(t, c.pos, 0, c.log);
    }
  }

  lemma {:induction false} ValueOpens(t: bytes, c: Config, dst: State)
    requires Wf(c) && Opens(dst) && Wf(Opened(c, dst))
    requires Peek(t, c.pos) == if dst == ObjectInitial then LBRACE else LBRACKET
    ensures Value(t, c.pos, c.log) == Pending(t, Skipped(t, Opened(c, dst)))
  {
    hide ScalarValue, ObjectBody, ArrayBody;
  }

  // Behind the inner container, the outer one goes on as behind a value.
  lemma {:induction false} AfterContainer(t: bytes, c: Config, dst: State, o: Out)
    requires Wf(c) && ExpectsValue(c.state) && Opens(dst) && Wf(Opened(c, dst)) && o.Ok?
    ensures AfterValue(t, c, o) == Pending(t, Behind(t, Opened(c, dst).frames, o.pos, o.log))
  {
    hide MemberTail, ElementTail;
    assert Rest(Opened(c, dst).frames) == c.frames;
    SkipTwice(t, o.pos);
  }

  lemma {:induction false} OpenResumes(t: bytes, c: Config, dst: State)
    requires Wf(c) && ExpectsValue(c.state) && Opens(dst)
    requires Peek(t, c.pos) == if dst == ObjectInitial then LBRACE else LBRACKET
    ensures Wf(Opened(c, dst)) && Resume(t, c) == Resume(t, Skipped(t, Opened(c, dst)))
  {
    hide Pending, Value, AfterValue;
    OpenedWf(c, dst);
    var o := Pending(t, Skipped(t, Opened(c, dst)));
    PendingValue(t, c);
    ValueOpens(t, c, dst);
    assert Rest(Opened(c, dst).frames) == c.frames;
    if o.Ok? {
      AfterContainer(t, c, dst, o);
    } else {
      AfterFailure(t, c, o);
    }
  }

  lemma {:induction false} AfterFailure(t: bytes, c: Config, o: Out)
    requires Wf(c) && ExpectsValue(c.state) && o.Err?
    ensures AfterValue(t, c, o) == o
  {
  }

  lemma {:induction false} PendingClosed(t: bytes, c: Config, dst: State)
    requires Wf(c) && Closes(dst)
    requires if dst == ObjectFinish then
               Peek(t, c.pos) == RBRACE && (c.state == ObjectInitial || c.state == MemberValueState)
             else Peek(t, c.pos) == RBRACKET && (c.state == ArrayInitial || c.state == Element)
    ensures Pending(t, c) == Ok(Closed(c, dst).pos, Closed(c, dst).log)
  {
    hide Value, Members, Elements;
  }

  lemma {:induction false} CloseResumes(t: bytes, c: Config, dst: State)
    requires Wf(c) && Closes(dst)
    requires if dst == ObjectFinish then
               Peek(t, c.pos) == RBRACE && (c.state == ObjectInitial || c.state == MemberValueState)
             else Peek(t, c.pos) == RBRACKET && (c.state == ArrayInitial || c.state == Element)
    ensures Wf(Closed(c, dst)) && Resume(t, c) == Resume(t, Skipped(t, Closed(c, dst)))
  {
    hide Pending;
    PendingClosed(t, c, dst);
    var d := Closed(c, dst);
    assert Skipped(t, d) == Behind(t, c.frames, d.pos, d.log);
  }

  // The count on top belongs to the container that is already done.
  lemma {:induction false} UnwindIgnoresCount(t: bytes, a: seq<Frame>, b: seq<Frame>, o: Out)
    requires FramesWf(a) && FramesWf(b)
    requires Rest(a) == Rest(b) && Top(a).ret == Top(b).ret
    ensures Unwind(t, a, o) == Unwind(t, b, o)
  {
    hide Pending;
  }

  lemma {:induction false} PendingSeparated(t: bytes, c: Config, dst: State)
    requires Wf(c) && Separates(dst) && Peek(t, c.pos) == COMMA
    requires c.state == if dst == MemberDelimiter then MemberValueState else Element
    ensures Wf(Separated(c, dst))
    ensures Pending(t, c) == Pending(t, Skipped(t, Separated(c, dst)))
  {
    hide Value, Members, Elements;
  }

  lemma {:induction false} SeparatorResumes(t: bytes, c: Config, dst: State)
    requires Wf(c) && Separates(dst) && Peek(t, c.pos) == COMMA
    requires c.state == if dst == MemberDelimiter then MemberValueState else Element
    ensures Wf(Separated(c, dst)) && Resume(t, c) == Resume(t, Skipped(t, Separated(c, dst)))
  {
    hide Pending;
    PendingSeparated(t, c, dst);
    var d := Separated(c, dst);
    assert Rest(d.frames) == Rest(c.frames);
    UnwindIgnoresCount(t, c.frames, d.frames, Pending(t, Skipped(t, d)));
  }

  // Where a member name may start, the rest is that name and what follows it.
  lemma {:induction false} PendingName(t: bytes, c: Config)
    requires Wf(c) && Peek(t, c.pos) == QUOTE && (c.state == ObjectInitial || c.state == MemberDelimiter)
    ensures var o := MemberName(t, c.pos, c.log);
            Pending(t, c) == if o.Err? then o else MemberColon(t, SkipSpace(t, o.pos), Top(c.frames).count, o.log)
  {
    hide MemberColon, MemberName;
    if c.state == ObjectInitial {
      assert Pending(t, c) == Members(t, c.pos, 0, c.log);
    }
  }

  // A name leaves the future as it was.
  lemma {:induction false} NameToken(t: bytes, c: Config)
    requires Wf(c) && Peek(t, c.pos) == QUOTE && (c.state == ObjectInitial || c.state == MemberDelimiter)
    ensures var o := MemberName(t, c.pos, c.log);
            if o.Err? then Pending(t, c) == o
            else
              var d := c.(state := MemberKey, pos := SkipSpace(t, o.pos), log := o.log);
              Wf(d) && Pending(t, c) == Pending(t, d)
  {
    hide MemberName, MemberColon;
    PendingName(t, c);
  }

  // The state behind a scalar value.
  function ScalarState(s: State): State {
    if s == Start then Finish else if s == KeyValueDelimiter then MemberValueState else Element
  }

  // So does a scalar value.
  lemma {:induction false} ScalarToken(t: bytes, c: Config)
    requires Wf(c) && ExpectsValue(c.state) && IsScalar(Tokenize(Peek(t, c.pos))) && Peek(t, c.pos) != NUL
    ensures var o := Value(t, c.pos, c.log);
            if o.Err? then Pending(t, c) == o
            else
              var d := c.(state := ScalarState(c.state), pos := SkipSpace(t, o.pos), log := o.log);
              Wf(d) && Pending(t, c) == Pending(t, d)
  {
    hide Value, MemberTail, ElementTail, DocumentEnd;
    PendingValue(t, c);
    var o := Value(t, c.pos, c.log);
    if o.Ok? {
      SkipTwice(t, o.pos);
      DocumentEndSkips(t, o.pos, o.log);
    }
  }

  lemma {:induction false} DocumentEndSkips(t: bytes, p: nat, log: Log)
    ensures DocumentEnd(t, SkipSpace(t, p), log) == DocumentEnd(t, p, log)
  {
    SkipTwice(t, p);
  }

  lemma {:induction false} PendingColon(t: bytes, c: Config)
    requires Wf(c) && c.state == MemberKey && Peek(t, c.pos) == COLON
    ensures var d := c.(state := KeyValueDelimiter, pos := SkipSpace(t, c.pos + 1));
            Wf(d) && Pending(t, c) == Pending(t, d)
  {
    hide MemberValue;
  }

  // No value starts with the terminator or with a separator.
  lemma {:induction false} NoValueHere(t: bytes, p: nat, log: Log)
    requires Peek(t, p) == NUL
          || !(IsScalar(Tokenize(Peek(t, p))) || StartsContainer(Peek(t, p)))
    ensures Value(t, p, log).Err? && Value(t, p, log).log == log && !AtBadHex(Value(t, p, log))
  {
    assert !IsDigit(Peek(t, p)) && Peek(t, p) != MINUS;
  }

  // Where the table knows no transition, the recursive parser fails as well
  // without emitting anything more.
  lemma {:induction false} PendingRefusal(t: bytes, c: Config)
    requires Wf(c)
    requires if Peek(t, c.pos) == NUL then c.state != Finish
             else SkipSpace(t, c.pos) == c.pos && Predict(c.state, Tokenize(Peek(t, c.pos))) == Error
    ensures Pending(t, c).Err? && Pending(t, c).log == c.log && !AtBadHex(Pending(t, c))
  {
    hide Value, MemberName;
    if ExpectsValue(c.state) {
      NoValueHere(t, c.pos, c.log);
      if c.state != Start || Peek(t, c.pos) != NUL { PendingValue(t, c); }
    } else if c.state == ObjectInitial {
      assert Pending(t, c) == Members(t, c.pos, 0, c.log);
    }
  }

  // A transition leaves the recursive parser's future unchanged.
  lemma {:induction false} StepResumes(t: bytes, c: Config)
    requires Wf(c) && SkipSpace(t, c.pos) == c.pos && Peek(t, c.pos) != NUL
    ensures Step(t, c).Next? ==>
              Wf(Step(t, c).c) && Resume(t, c) == Resume(t, Skipped(t, Step(t, c).c))
    ensures Step(t, c).Fail? ==> Agree(Resume(t, c), Err(Step(t, c).code, Step(t, c).off, Step(t, c).log))
  {
    hide Predict, Tokenize, Pending, Value, MemberName, Opened, Separated, Closed;
    var dst := Predict(c.state, Tokenize(Peek(t, c.pos)));
    PredictFrom(c.state, Peek(t, c.pos));
    if dst == Error {
      PendingRefusal(t, c);
    } else if Opens(dst) {
      OpenResumes(t, c, dst);
    } else if Separates(dst) {
      SeparatorResumes(t, c, dst);
    } else if Closes(dst) {
      CloseResumes(t, c, dst);
    } else if dst == KeyValueDelimiter {
      PendingColon(t, c);
    } else if dst == MemberKey {
      NameToken(t, c);
    } else {
      ScalarToken(t, c);
    }
  }

  lemma {:induction false} RunResumes(t: bytes, c: Config)
    requires Wf(c) && SkipSpace(t, c.pos) == c.pos
    ensures Agree(Run(t, c), Resume(t, c))
    decreases Left(t, c.pos)
  {
    if Peek(t, c.pos) == NUL {
      if c.state != Finish { PendingRefusal(t, c); }
    } else {
      StepKeepsShape(t, c);
      StepResumes(t, c);
      if Step(t, c).Next? {
        SkipTwice(t, Step(t, c).c.pos);
        RunResumes(t, Skipped(t, Step(t, c).c));
      }
    }
  }

  // The iterative parser accepts exactly the texts the recursive one accepts,
  // and on every text, accepted or not, both emit the same events.
  lemma {:induction false} IterativeAgreesWithRecursive(t: bytes)
    ensures Agree(IterativeDocument(t), ParsedDocument(t))
  {
    SkipTwice(t, 0);
    RunResumes(t, Skipped(t, Initial));
  }
}
