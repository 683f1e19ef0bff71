/**
 `Json::Reader` as a function of the document: what readValue, readObject, readArray and parse
 return and where they leave the cursor, the error list and the depth counter.
 */
module JsonParsing {
  import opened JsonValues
  import JsonNumbers
  import opened JsonScanner
  import JsonStrings

  const STACK_LIMIT := 1000

  datatype Message =
    | ValueExpected
    | MissingColon
    | MissingCommaOrBrace
    | MissingBraceOrName
    | MissingCommaOrBracket
    | NotANumber
    | RootMustBeContainer
    | InString(m: JsonStrings.Message)

  datatype ErrorInfo = ErrorInfo(token: Token, message: Message, extra: Option<nat>)

  /** What a parse depends on: the text, the features, and the library's conversion to double. */
  datatype Config = Config(document: string, allowComments: bool, strictRoot: bool, toDouble: JsonNumbers.ToDouble)

  /** The reader's cursor, depth counter and error list. */
  datatype State = State(pos: nat, depth: nat, errors: seq<ErrorInfo>)

  /** A call returns a success flag, leaving a value and a state, or throws. */
  datatype Outcome = Threw | Done(ok: bool, value: Value, state: State)

  function WithError(s: State, token: Token, message: Message, extra: Option<nat>): State {
    s.(errors := s.errors + [ErrorInfo(token, message, extra)])
  }

  /** skipCommentTokens. */
  function NextToken(c: Config, i: nat): (t: Token)
    requires i <= |c.document|
    ensures i <= t.start <= t.end <= |c.document|
    ensures t.kind != EndOfStream ==> t.start < t.end
    ensures t.kind == StringToken ==> t.start + 2 <= t.end
  {
    if c.allowComments then ScanPastComments(c.document, i) else Scan(c.document, i)
  }

  /** recoverFromError after the errors already in s. */
  function Recovered(c: Config, value: Value, s: State, until: TokenType): Outcome
    requires s.pos <= |c.document|
  {
    Done(false, value, s.(pos := RecoverEnd(c.document, s.pos, until)))
  }

  /** One call of a reading function from s: the cursor stays in the document and does not move
      back; success records no error and restores the depth, failure records exactly one error. */
  ghost predicate Regular(c: Config, s: State, r: Outcome) {
    r.Done? ==>
      && s.pos <= r.state.pos <= |c.document|
      && (r.ok ==> r.state.errors == s.errors && r.state.depth == s.depth)
      && (!r.ok ==> exists e :: r.state.errors == s.errors + [e])
  }

  /** What one turn of a loop over members or items comes to: the end of the loop, or the
      member name, the entries and the state to go on with. */
  datatype Turn = Last(r: Outcome) | More(name: string, entries: seq<Entry>, state: State)

  ghost predicate RegularTurn(c: Config, s: State, turn: Turn) {
    match turn
    case Last(r) => Regular(c, s, r)
    case More(_, _, s') => s.pos < s'.pos <= |c.document| && s'.errors == s.errors && s'.depth == s.depth
  }

  function StringValue(c: Config, v: Value, s: State, t: Token): (r: Outcome)
    requires s.pos <= |c.document| && t.start + 2 <= t.end <= |c.document|
    ensures Regular(c, s, r)
  {
    match JsonStrings.Decode(c.document, t.start + 1, t.end - 1)
    case Text(text) => Done(true, Str(text), s)
    case Bad(m, extra) => Done(false, v, WithError(s, t, InString(m), Some(extra)))
  }

  ghost function NumberOf(c: Config, v: Value, s: State, t: Token): (r: Outcome)
    requires s.pos <= |c.document| && t.start < t.end <= |c.document|
    ensures Regular(c, s, r)
  {
    match JsonNumbers.NumberValue(c.document[t.start..t.end], c.toDouble)
    case Some(x) => Done(true, x, s)
    case None => Done(false, v, WithError(s, t, NotANumber, None))
  }

  /** --stackDepth_g on the way out of readValue. */
  function Leave(r: Outcome): Outcome {
    if r.Done? && r.state.depth > 0 then r.(state := r.state.(depth := r.state.depth - 1)) else r
  }

  ghost function ReadValue(c: Config, v: Value, s: State): (r: Outcome)
    requires s.pos <= |c.document|
    ensures Regular(c, s, r)
    decreases |c.document| - s.pos, 0
  {
    if s.depth >= STACK_LIMIT then Threw
    else
      var t := NextToken(c, s.pos);
      var inside := State(t.end, s.depth + 1, s.errors);
      match t.kind
      case ObjectBegin => Leave(ReadMembers(c, "", [], inside))
      case ArrayBegin => Leave(ReadArray(c, inside))
      case Number => Leave(NumberOf(c, v, inside, t))
      case StringToken => Leave(StringValue(c, v, inside, t))
      case True => Leave(Done(true, Bool(true), inside))
      case False => Leave(Done(true, Bool(false), inside))
      case NullToken => Leave(Done(true, Null, inside))
      // This path returns without decrementing the depth counter.
      case _ => Done(false, v, WithError(inside, t, ValueExpected, None))
  }

  /** The loop of readObject; `name` is the member name read last. */
  ghost function ReadMembers(c: Config, name: string, es: seq<Entry>, s: State): (r: Outcome)
    requires s.pos <= |c.document|
    ensures Regular(c, s, r)
    decreases |c.document| - s.pos, 2
  {
    match MemberTurn(c, name, es, s)
    case Last(r) => r
    case More(name', es', s') => ReadMembers(c, name', es', s')
  }

  ghost function MemberTurn(c: Config, name: string, es: seq<Entry>, s: State): (r: Turn)
    requires s.pos <= |c.document|
    ensures RegularTurn(c, s, r)
    decreases |c.document| - s.pos, 1
  {
    var t := ScanPastComments(c.document, s.pos);
    var s1 := s.(pos := t.end);
    if t.kind == ObjectEnd && name == "" then Last(Done(true, Obj(es), s1))
    else if t.kind != StringToken then
      Last(Recovered(c, Obj(es), WithError(s1, t, MissingBraceOrName, None), ObjectEnd))
    else
      match JsonStrings.Decode(c.document, t.start + 1, t.end - 1)
      case Bad(m, extra) => Last(Recovered(c, Obj(es), WithError(s1, t, InString(m), Some(extra)), ObjectEnd))
      case Text(key) => MemberRest(c, key, es, s1)
  }

  /** A turn of that loop from the colon on. */
  ghost function MemberRest(c: Config, key: string, es: seq<Entry>, s: State): (r: Turn)
    requires s.pos <= |c.document|
    ensures RegularTurn(c, s, r) && (r.More? ==> r.name == key)
    decreases |c.document| - s.pos, 1
  {
    var colon := Scan(c.document, s.pos);
    var s1 := s.(pos := colon.end);
    if colon.kind != MemberSeparator then
      Last(Recovered(c, Obj(es), WithError(s1, colon, MissingColon, None), ObjectEnd))
    else
      match ReadValue(c, MemberOrNull(es, key), s1)
      case Threw => Last(Threw)
      case Done(ok, child, s2) =>
        var es' := Put(es, Name(key), child);
        if !ok then Last(Recovered(c, Obj(es'), s2, ObjectEnd)) else MemberEnd(c, key, es', s2)
  }

  /** A turn of that loop from the comma or closing brace on. */
  function MemberEnd(c: Config, key: string, es: seq<Entry>, s: State): (r: Turn)
    requires s.pos <= |c.document|
    ensures RegularTurn(c, s, r) && (r.More? ==> r.name == key)
  {
    var comma := Scan(c.document, s.pos);
    if comma.kind != ObjectEnd && comma.kind != ArraySeparator && comma.kind != Comment then
      Last(Recovered(c, Obj(es), WithError(s.(pos := comma.end), comma, MissingCommaOrBrace, None), ObjectEnd))
    else
      var last := ScanPastComments(c.document, s.pos);
      var s1 := s.(pos := last.end);
      if last.kind == ObjectEnd then Last(Done(true, Obj(es), s1)) else More(key, es, s1)
  }

  /** currentValue()[name], which creates a null member when there is none. */
  function MemberOrNull(es: seq<Entry>, key: string): Value {
    match Find(es, Name(key))
    case Some(v) => v
    case None => Null
  }

  ghost function ReadArray(c: Config, s: State): (r: Outcome)
    requires s.pos <= |c.document|
    ensures Regular(c, s, r)
    decreases |c.document| - s.pos, 3
  {
    var i := SpacesEnd(c.document, s.pos);
    if Peek(c.document, i) == ']' then Done(true, Arr([]), s.(pos := Scan(c.document, i).end))
    else ReadItems(c, 0, [], s.(pos := i))
  }

  /** The loop of readArray. */
  ghost function ReadItems(c: Config, index: nat, es: seq<Entry>, s: State): (r: Outcome)
    requires s.pos <= |c.document|
    ensures Regular(c, s, r)
    decreases |c.document| - s.pos, 2
  {
    match ItemTurn(c, index, es, s)
    case Last(r) => r
    case More(_, es', s') => ReadItems(c, index + 1, es', s')
  }

  ghost function ItemTurn(c: Config, index: nat, es: seq<Entry>, s: State): (r: Turn)
    requires s.pos <= |c.document|
    ensures RegularTurn(c, s, r)
    decreases |c.document| - s.pos, 1
  {
    match ReadValue(c, Null, s)
    case Threw => Last(Threw)
    case Done(ok, child, s1) =>
      var es' := Put(es, Index(index), child);
      if !ok then Last(Recovered(c, Arr(es'), s1, ArrayEnd)) else ItemEnd(c, es', s1)
  }

  /** A turn of that loop from the comma or closing bracket on. */
  function ItemEnd(c: Config, es: seq<Entry>, s: State): (r: Turn)
    requires s.pos <= |c.document|
    ensures RegularTurn(c, s, r)
  {
    var t := ScanPastComments(c.document, s.pos);
    var s1 := s.(pos := t.end);
    if t.kind != ArraySeparator && t.kind != ArrayEnd then
      Last(Recovered(c, Arr(es), WithError(s1, t, MissingCommaOrBracket, None), ArrayEnd))
    else if t.kind == ArrayEnd then Last(Done(true, Arr(es), s1))
    else More("", es, s1)
  }

  /** parse, from any previous content of the root value. */
  ghost function Parse(c: Config, root: Value): (r: Outcome)
    ensures r.Done? ==> r.state.pos <= |c.document| && (r.ok <==> r.state.errors == [])
  {
    match ReadValue(c, root, State(0, 0, []))
    case Threw => Threw
    case Done(ok, v, s) =>
      var s1 := s.(pos := NextToken(c, s.pos).end);
      if c.strictRoot && !v.Arr? && !v.Obj? then
        Done(false, v, WithError(s1, Token(ErrorToken, 0, |c.document|), RootMustBeContainer, None))
      else Done(ok, v, s1)
  }
}
