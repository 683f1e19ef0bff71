/**
 The tokens of `Json::Reader`: how far each token reaches from a position of the document.
 Reading past the end yields NUL, as getNextChar and the terminator of c_str() do.
 */
module JsonScanner {

  datatype TokenType =
    | EndOfStream
    | ObjectBegin
    | ObjectEnd
    | ArrayBegin
    | ArrayEnd
    | StringToken
    | Number
    | True
    | False
    | NullToken
    | ArraySeparator
    | MemberSeparator
    | Comment
    | ErrorToken

  datatype Token = Token(kind: TokenType, start: nat, end: nat)

  function Peek(document: string, i: nat): char {
    if i < |document| then document[i] else '\0'
  }

  /** The position after getNextChar. */
  function After(document: string, i: nat): nat {
    if i < |document| then i + 1 else i
  }

  predicate IsSpace(c: char) {
    c == ' ' || c == '\t' || c == '\r' || c == '\n'
  }

  predicate IsDigit(c: char) {
    '0' <= c <= '9'
  }

  function SpacesEnd(document: string, i: nat): (end: nat)
    requires i <= |document|
    ensures i <= end <= |document|
    decreases |document| - i
  {
    if i < |document| && IsSpace(document[i]) then SpacesEnd(document, i + 1) else i
  }

  function DigitsEnd(document: string, i: nat): (end: nat)
    requires i <= |document|
    ensures i <= end <= |document|
    decreases |document| - i
  {
    if i < |document| && IsDigit(document[i]) then DigitsEnd(document, i + 1) else i
  }

  function FractionEnd(document: string, i: nat): (end: nat)
    requires i <= |document|
    ensures i <= end <= |document|
  {
    if Peek(document, i) == '.' then DigitsEnd(document, i + 1) else i
  }

  function ExponentEnd(document: string, i: nat): (end: nat)
    requires i <= |document|
    ensures i <= end <= |document|
  {
    if Peek(document, i) == 'e' || Peek(document, i) == 'E' then
      var sign := Peek(document, i + 1);
      DigitsEnd(document, if sign == '+' || sign == '-' then i + 2 else i + 1)
    else i
  }

  /** The end of a number whose first character, a digit or a minus, has been read. */
  function NumberEnd(document: string, i: nat): (end: nat)
    requires i <= |document|
    ensures i <= end <= |document|
  {
    ExponentEnd(document, FractionEnd(document, DigitsEnd(document, i)))
  }

  /** Where a token ends, and whether it was well formed. */
  datatype Extent = Extent(ok: bool, end: nat)

  /** The rest of a string after its opening quote. */
  function StringEnd(document: string, i: nat): (e: Extent)
    requires i <= |document|
    ensures i <= e.end <= |document|
    ensures e.ok ==> i < e.end
    decreases |document| - i
  {
    if i == |document| then Extent(false, i)
    else if document[i] == '\\' then StringEnd(document, After(document, i + 1))
    else if document[i] == '"' then Extent(true, i + 1)
    else StringEnd(document, i + 1)
  }

  /** Where the loop of readCStyleComment stops: after a star that a slash follows, or at the end. */
  function StarEnd(document: string, i: nat): (end: nat)
    requires i <= |document|
    ensures i <= end <= |document|
    decreases |document| - i
  {
    if i == |document| then i
    else if document[i] == '*' && Peek(document, i + 1) == '/' then i + 1
    else StarEnd(document, i + 1)
  }

  function LineEnd(document: string, i: nat): (end: nat)
    requires i <= |document|
    ensures i <= end <= |document|
    decreases |document| - i
  {
    if i == |document| then i
    else if document[i] == '\n' then i + 1
    else if document[i] == '\r' then (if Peek(document, i + 1) == '\n' then i + 2 else i + 1)
    else LineEnd(document, i + 1)
  }

  /** The rest of a comment after its first slash. */
  function CommentEnd(document: string, i: nat): (e: Extent)
    requires i <= |document|
    ensures i <= e.end <= |document|
  {
    var c := Peek(document, i);
    if c == '*' then
      var star := StarEnd(document, i + 1);
      Extent(Peek(document, star) == '/', After(document, star))
    else if c == '/' then Extent(true, LineEnd(document, i + 1))
    else Extent(false, After(document, i))
  }

  /** A literal is consumed whole or not at all. */
  function LiteralEnd(document: string, i: nat, rest: string): (e: Extent)
    requires i <= |document|
    ensures i <= e.end <= |document|
  {
    if i + |rest| <= |document| && document[i..i + |rest|] == rest then Extent(true, i + |rest|) else Extent(false, i)
  }

  function TokenOf(kind: TokenType, start: nat, e: Extent): Token {
    Token(if e.ok then kind else ErrorToken, start, e.end)
  }

  /** readToken: the token at or after position i; reading resumes at its end. */
  function Scan(document: string, i: nat): (t: Token)
    requires i <= |document|
    ensures i <= t.start <= t.end <= |document|
    ensures t.kind != EndOfStream ==> t.start < t.end
    ensures t.kind == StringToken ==> t.start + 2 <= t.end
  {
    var start := SpacesEnd(document, i);
    var next := After(document, start);
    match Peek(document, start)
    case '{' => Token(ObjectBegin, start, next)
    case '}' => Token(ObjectEnd, start, next)
    case '[' => Token(ArrayBegin, start, next)
    case ']' => Token(ArrayEnd, start, next)
    case '"' => TokenOf(StringToken, start, StringEnd(document, next))
    case '/' => TokenOf(Comment, start, CommentEnd(document, next))
    case 't' => TokenOf(True, start, LiteralEnd(document, next, "rue"))
    case 'f' => TokenOf(False, start, LiteralEnd(document, next, "alse"))
    case 'n' => TokenOf(NullToken, start, LiteralEnd(document, next, "ull"))
    case ',' => Token(ArraySeparator, start, next)
    case ':' => Token(MemberSeparator, start, next)
    case '\0' => Token(EndOfStream, start, next)
    case c =>
      if IsDigit(c) || c == '-' then Token(Number, start, NumberEnd(document, next))
      else Token(ErrorToken, start, next)
  }

  /** The first token that is not a comment. */
  function ScanPastComments(document: string, i: nat): (t: Token)
    requires i <= |document|
    ensures i <= t.start <= t.end <= |document|
    ensures t.kind != EndOfStream ==> t.start < t.end
    ensures t.kind == StringToken ==> t.start + 2 <= t.end
    ensures t.kind != Comment
    decreases |document| - i
  {
    var t := Scan(document, i);
    if t.kind == Comment then ScanPastComments(document, t.end) else t
  }

  lemma PastOneComment(document: string, i: nat)
    requires i <= |document|
    ensures ScanPastComments(document, i) ==
            if Scan(document, i).kind == Comment then ScanPastComments(document, Scan(document, i).end) else Scan(document, i)
  {
  }

  /** recoverFromError: where reading resumes after skipping to a token of the given type. */
  function RecoverEnd(document: string, i: nat, until: TokenType): (end: nat)
    requires i <= |document|
    ensures i <= end <= |document|
    decreases |document| - i
  {
    var t := Scan(document, i);
    if t.kind == until || t.kind == EndOfStream then t.end else RecoverEnd(document, t.end, until)
  }
}
