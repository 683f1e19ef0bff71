/**
 `Json::Reader` with its fields updated in place: the cursor, the error list, the depth counter
 and the stack of values under construction.  Every method is tied to the corresponding
 function of JsonScanner or JsonParsing.

 The stack holds pointers into the tree under the root.  Here it holds the values themselves:
 a child is pushed as a copy and stored back into its parent when it is popped.
 */
module JsonReader {
  import opened JsonValues
  import JsonNumbers
  import opened JsonScanner
  import opened JsonParsing
  import JsonStrings

  /** A container with other entries. */
  function WithEntries(parent: Value, es: seq<Entry>): Value
    requires parent.Obj? || parent.Arr?
  {
    if parent.Obj? then Obj(es) else Arr(es)
  }

  /** A container with one entry stored. */
  function WithChild(parent: Value, key: Key, child: Value): Value
    requires parent.Obj? || parent.Arr?
  {
    WithEntries(parent, Put(parent.entries, key, child))
  }

  class Reader {
    const c: Config
    var current: nat
    var nodes: seq<Value>
    var errors: seq<ErrorInfo>
    var stackDepth: nat

    ghost predicate Valid()
      reads this
    {
      current <= |c.document|
    }

    constructor (c: Config)
      ensures Valid() && this.c == c
    {
      this.c := c;
      current, nodes, errors, stackDepth := 0, [], [], 0;
    }

    // -------------------------------------------------------------------------
    // Tokens
    // -------------------------------------------------------------------------

    method GetNextChar() returns (ch: char)
      requires Valid()
      modifies this`current
      ensures Valid() && ch == Peek(c.document, old(current)) && current == After(c.document, old(current))
    {
      if current == |c.document| {
        return '\0';
      }
      ch := c.document[current];
      current := current + 1;
    }

    method SkipSpaces()
      requires Valid()
      modifies this`current
      ensures Valid() && current == SpacesEnd(c.document, old(current))
    {
      while current != |c.document|
        invariant Valid() && SpacesEnd(c.document, current) == SpacesEnd(c.document, old(current))
        decreases |c.document| - current
      {
        if IsSpace(c.document[current]) {
          current := current + 1;
        } else {
          break;
        }
      }
    }

    method Match(pattern: string) returns (ok: bool)
      requires Valid()
      modifies this`current
      ensures Valid() && Extent(ok, current) == LiteralEnd(c.document, old(current), pattern)
    {
      if |c.document| - current < |pattern| {
        return false;
      }
      var index := |pattern|;
      while index > 0
        invariant 0 <= index <= |pattern|
        invariant forall k :: index <= k < |pattern| ==> c.document[current + k] == pattern[k]
      {
        index := index - 1;
        if c.document[current + index] != pattern[index] {
          return false;
        }
      }
      current := current + |pattern|;
      return true;
    }

    method ReadCStyleComment() returns (ok: bool)
      requires Valid()
      modifies this`current
      ensures Valid()
      ensures var star := StarEnd(c.document, old(current));
              ok == (Peek(c.document, star) == '/') && current == After(c.document, star)
    {
      while current != |c.document|
        invariant Valid() && StarEnd(c.document, current) == StarEnd(c.document, old(current))
        decreases |c.document| - current
      {
        var ch := GetNextChar();
        if ch == '*' && Peek(c.document, current) == '/' {
          var slash := GetNextChar();
          return slash == '/';
        }
      }
      var ch := GetNextChar();
      return ch == '/';
    }

    method ReadCppStyleComment() returns (ok: bool)
      requires Valid()
      modifies this`current
      ensures Valid() && ok && current == LineEnd(c.document, old(current))
    {
      while current != |c.document|
        invariant Valid() && LineEnd(c.document, current) == LineEnd(c.document, old(current))
        decreases |c.document| - current
      {
        var ch := GetNextChar();
        if ch == '\n' {
          break;
        }
        if ch == '\r' {
          if current != |c.document| && c.document[current] == '\n' {
            var _ := GetNextChar();
          }
          break;
        }
      }
      return true;
    }

    method ReadComment() returns (ok: bool)
      requires Valid()
      modifies this`current
      ensures Valid() && Extent(ok, current) == CommentEnd(c.document, old(current))
    {
      var ch := GetNextChar();
      ok := false;
      if ch == '*' {
        ok := ReadCStyleComment();
      } else if ch == '/' {
        ok := ReadCppStyleComment();
      }
    }

    method SkipDigits()
      requires Valid()
      modifies this`current
      ensures Valid() && current == DigitsEnd(c.document, old(current))
    {
      while current < |c.document| && IsDigit(c.document[current])
        invariant Valid() && DigitsEnd(c.document, current) == DigitsEnd(c.document, old(current))
      {
        current := current + 1;
      }
    }

    method ReadNumber()
      requires Valid()
      modifies this`current
      ensures Valid() && current == NumberEnd(c.document, old(current))
    {
      hide DigitsEnd;
      SkipDigits();
      if Peek(c.document, current) == '.' {
        current := current + 1;
        SkipDigits();
      }
      if Peek(c.document, current) == 'e' || Peek(c.document, current) == 'E' {
        current := current + 1;
        if Peek(c.document, current) == '+' || Peek(c.document, current) == '-' {
          current := current + 1;
        }
        SkipDigits();
      }
    }

    method ReadString() returns (ok: bool)
      requires Valid()
      modifies this`current
      ensures Valid() && Extent(ok, current) == StringEnd(c.document, old(current))
    {
      var ch := '\0';
      while current != |c.document|
        invariant Valid() && ch != '"' && StringEnd(c.document, current) == StringEnd(c.document, old(current))
        decreases |c.document| - current
      {
        ch := GetNextChar();
        if ch == '\\' {
          var _ := GetNextChar();
        } else if ch == '"' {
          break;
        }
      }
      return ch == '"';
    }

    /** readToken also returns a flag, but it is always true; so the branches of its callers on a
        false flag are not written out. */
    method ReadToken() returns (token: Token)
      requires Valid()
      modifies this`current
      ensures Valid() && token == Scan(c.document, old(current)) && current == token.end
    {
      SkipSpaces();
      var start := current;
      var ch := GetNextChar();
      var ok, kind := true, EndOfStream;
      match ch {
        case '{' => kind := ObjectBegin;
        case '}' => kind := ObjectEnd;
        case '[' => kind := ArrayBegin;
        case ']' => kind := ArrayEnd;
        case '"' =>
          kind := StringToken;
          ok := ReadString();
        case '/' =>
          kind := Comment;
          ok := ReadComment();
        case 't' =>
          kind := True;
          ok := Match("rue");
        case 'f' =>
          kind := False;
          ok := Match("alse");
        case 'n' =>
          kind := NullToken;
          ok := Match("ull");
        case ',' => kind := ArraySeparator;
        case ':' => kind := MemberSeparator;
        case '\0' => kind := EndOfStream;
        case _ =>
          if IsDigit(ch) || ch == '-' {
            kind := Number;
            ReadNumber();
          } else {
            ok := false;
          }
      }
      token := Token(if ok then kind else ErrorToken, start, current);
    }

    /** The loop of skipCommentTokens, readObject and readArray: readToken until it gives no comment. */
    method ReadPastComments() returns (token: Token)
      requires Valid()
      modifies this`current
      ensures Valid() && token == ScanPastComments(c.document, old(current)) && current == token.end
    {
      token := ReadToken();
      while token.kind == Comment
        invariant Valid() && current == token.end
        invariant token.kind == Comment ==> ScanPastComments(c.document, current) == ScanPastComments(c.document, old(current))
        invariant token.kind != Comment ==> token == ScanPastComments(c.document, old(current))
        invariant token.kind == Comment ==> old(current) < current
        decreases |c.document| - current, if token.kind == Comment then 1 else 0
      {
        token := ReadToken();
      }
    }

    method SkipCommentTokens() returns (token: Token)
      requires Valid()
      modifies this`current
      ensures Valid() && token == NextToken(c, old(current)) && current == token.end
    {
      if c.allowComments {
        token := ReadPastComments();
      } else {
        token := ReadToken();
      }
    }

    // -------------------------------------------------------------------------
    // Errors
    // -------------------------------------------------------------------------

    ghost function Here(): State
      reads this
    {
      State(current, stackDepth, errors)
    }

    method AddError(message: Message, token: Token, extra: Option<nat>) returns (ok: bool)
      modifies this`errors
      ensures !ok && errors == old(errors) + [ErrorInfo(token, message, extra)]
    {
      errors := errors + [ErrorInfo(token, message, extra)];
      ok := false;
    }

    method RecoverFromError(skipUntilToken: TokenType) returns (ok: bool)
      requires Valid()
      modifies this`current, this`errors
      ensures Valid() && !ok && errors == old(errors)
      ensures current == RecoverEnd(c.document, old(current), skipUntilToken)
    {
      var errorCount := |errors|;
      var skip := ReadToken();
      while skip.kind != skipUntilToken && skip.kind != EndOfStream
        invariant Valid() && current == skip.end && errors == old(errors)
        invariant if skip.kind != skipUntilToken && skip.kind != EndOfStream
                  then RecoverEnd(c.document, current, skipUntilToken) == RecoverEnd(c.document, old(current), skipUntilToken)
                  else current == RecoverEnd(c.document, old(current), skipUntilToken)
        invariant skip.kind != EndOfStream ==> skip.start < skip.end
        decreases |c.document| - skip.end, if skip.kind == EndOfStream then 0 else 1
      {
        skip := ReadToken();
      }
      errors := errors[..errorCount];
      return false;
    }

    method AddErrorAndRecover(message: Message, token: Token, skipUntilToken: TokenType) returns (ok: bool)
      requires Valid()
      modifies this`current, this`errors
      ensures Valid() && !ok && errors == old(errors) + [ErrorInfo(token, message, None)]
      ensures current == RecoverEnd(c.document, old(current), skipUntilToken)
    {
      var _ := AddError(message, token, None);
      ok := RecoverFromError(skipUntilToken);
    }

    // -------------------------------------------------------------------------
    // Values
    // -------------------------------------------------------------------------

    function CurrentValue(): Value
      reads this
      requires nodes != []
    {
      nodes[|nodes| - 1]
    }

    /** currentValue() = v, and currentValue().swapPayload(v). */
    method SetCurrentValue(v: Value)
      requires nodes != []
      modifies this`nodes
      ensures nodes == old(nodes)[..|old(nodes)| - 1] + [v]
    {
      nodes := nodes[..|nodes| - 1] + [v];
    }

    /** A call that began in state `was` with the node stack `stack` did what outcome r says. */
    ghost predicate Did(r: Outcome, stack: seq<Value>, threw: bool, ok: bool)
      reads this
      requires stack != []
    {
      match r
      case Threw => threw
      case Done(done, v, s) => !threw && ok == done && Here() == s && nodes == stack[..|stack| - 1] + [v]
    }

    method DecodeNumber(token: Token) returns (ok: bool)
      requires Valid() && nodes != [] && token.start < token.end <= |c.document|
      modifies this`nodes, this`errors
      ensures Valid() && Did(NumberOf(c, old(CurrentValue()), old(Here()), token), old(nodes), false, ok)
    {
      var decoded := JsonNumbers.DecodeNumber(c.document, token.start, token.end, c.toDouble);
      match decoded
      case Some(v) =>
        SetCurrentValue(v);
        ok := true;
      case None =>
        ok := AddError(NotANumber, token, None);
    }

    method DecodeString(token: Token) returns (ok: bool)
      requires Valid() && nodes != [] && token.start + 2 <= token.end <= |c.document|
      modifies this`nodes, this`errors
      ensures Valid() && Did(StringValue(c, old(CurrentValue()), old(Here()), token), old(nodes), false, ok)
    {
      hide JsonStrings.Decode, Regular;
      var decoded := JsonStrings.DecodeString(c.document, token.start + 1, token.end - 1);
      match decoded
      case Text(text) =>
        SetCurrentValue(Str(text));
        ok := true;
      case Bad(m, extra) =>
        ok := AddError(InString(m), token, Some(extra));
    }

    /** `threw` models the exception of throwRuntimeError. */
    method ReadValue() returns (threw: bool, ok: bool)
      requires Valid() && nodes != []
      modifies this
      ensures Valid() || threw
      ensures Did(JsonParsing.ReadValue(c, old(CurrentValue()), old(Here())), old(nodes), threw, ok)
      decreases |c.document| - current, 0
    {
      hide Scan, ScanPastComments, NextToken, RecoverEnd, Put, LowerBound, Regular, RegularTurn, JsonStrings.Decode, ReadMembers, JsonParsing.ReadArray, NumberOf, StringValue;
      if stackDepth >= STACK_LIMIT {
        return true, false;
      }
      stackDepth := stackDepth + 1;
      var token := SkipCommentTokens();
      threw, ok := false, true;
      match token.kind {
        case ObjectBegin => threw, ok := ReadObject();
        case ArrayBegin => threw, ok := ReadArray();
        case Number => ok := DecodeNumber(token);
        case StringToken => ok := DecodeString(token);
        case True => SetCurrentValue(Bool(true));
        case False => SetCurrentValue(Bool(false));
        case NullToken => SetCurrentValue(Null);
        case _ =>
          ok := AddError(ValueExpected, token, None);
          return;
      }
      if !threw && stackDepth > 0 {
        stackDepth := stackDepth - 1;
      }
    }

    // -------------------------------------------------------------------------
    // Objects and arrays
    // -------------------------------------------------------------------------

    /** nodes_.pop(), with the popped child stored under its key in the value below it. */
    method PopInto(key: Key)
      requires |nodes| >= 2 && (nodes[|nodes| - 2].Obj? || nodes[|nodes| - 2].Arr?)
      modifies this`nodes
      ensures var n := |old(nodes)|;
              nodes == old(nodes)[..n - 2] + [WithChild(old(nodes)[n - 2], key, old(nodes)[n - 1])]
    {
      var child := CurrentValue();
      nodes := nodes[..|nodes| - 1];
      SetCurrentValue(WithChild(CurrentValue(), key, child));
    }

    /** A turn of a reading loop that began with the node stack `stack` did what `turn` says. */
    ghost predicate DidTurn(turn: Turn, stack: seq<Value>, threw: bool, ok: bool, more: bool)
      reads this
      requires stack != [] && (stack[|stack| - 1].Obj? || stack[|stack| - 1].Arr?)
    {
      match turn
      case Last(r) => !more && Did(r, stack, threw, ok)
      case More(_, es, s) =>
        && more && !threw && Here() == s
        && nodes == stack[..|stack| - 1] + [WithEntries(stack[|stack| - 1], es)]
    }

    /** A turn of the loop of readObject from the comma or closing brace on. */
    method EndMember(ghost key: string) returns (ok: bool, more: bool)
      requires Valid() && nodes != [] && CurrentValue().Obj?
      modifies this`current, this`errors
      ensures Valid()
      ensures DidTurn(MemberEnd(c, key, old(CurrentValue().entries), old(Here())), nodes, false, ok, more)
    {
      hide Scan, ScanPastComments, RecoverEnd, Regular, RegularTurn;
      PastOneComment(c.document, current);
      ok, more := true, false;
      var comma := ReadToken();
      if comma.kind != ObjectEnd && comma.kind != ArraySeparator && comma.kind != Comment {
        ok := AddErrorAndRecover(MissingCommaOrBrace, comma, ObjectEnd);
        return;
      }
      if comma.kind == Comment {
        comma := ReadPastComments();
      }
      more := comma.kind != ObjectEnd;
    }

    /** A turn of the loop of readObject from the colon on. */
    method ReadMember(key: string) returns (threw: bool, ok: bool, more: bool)
      requires Valid() && nodes != [] && CurrentValue().Obj?
      modifies this
      ensures Valid() || threw
      ensures DidTurn(MemberRest(c, key, old(CurrentValue().entries), old(Here())), old(nodes), threw, ok, more)
      decreases |c.document| - current, 1
    {
      hide Scan, ScanPastComments, NextToken, RecoverEnd, Put, LowerBound, Regular, RegularTurn, JsonStrings.Decode;
      hide MemberOrNull, JsonParsing.ReadValue, MemberEnd;
      threw, more := false, false;
      var colon := ReadToken();
      if colon.kind != MemberSeparator {
        ok := AddErrorAndRecover(MissingColon, colon, ObjectEnd);
        return;
      }
      nodes := nodes + [MemberOrNull(CurrentValue().entries, key)];
      threw, ok := ReadValue();
      if threw {
        return;
      }
      PopInto(Name(key));
      if !ok {
        ok := RecoverFromError(ObjectEnd);
        return;
      }
      ok, more := EndMember(key);
    }

    /** A whole turn of the loop of readObject; `name` is the member name read last. */
    method ReadNameAndMember(lastName: string) returns (threw: bool, ok: bool, more: bool, name: string)
      requires Valid() && nodes != [] && CurrentValue().Obj?
      modifies this
      ensures Valid() || threw
      ensures var turn := MemberTurn(c, lastName, old(CurrentValue().entries), old(Here()));
              DidTurn(turn, old(nodes), threw, ok, more) && (turn.More? ==> name == turn.name)
      decreases |c.document| - current, 2
    {
      hide Scan, ScanPastComments, RecoverEnd, Regular, RegularTurn, JsonStrings.Decode, MemberRest;
      threw, ok, more, name := false, true, false, "";
      var tokenName := ReadPastComments();
      if tokenName.kind == ObjectEnd && lastName == "" {
        return;
      }
      if tokenName.kind != StringToken {
        ok := AddErrorAndRecover(MissingBraceOrName, tokenName, ObjectEnd);
        return;
      }
      var decoded := JsonStrings.DecodeString(c.document, tokenName.start + 1, tokenName.end - 1);
      match decoded
      case Bad(m, extra) =>
        var _ := AddError(InString(m), tokenName, Some(extra));
        ok := RecoverFromError(ObjectEnd);
      case Text(key) =>
        name := key;
        threw, ok, more := ReadMember(name);
    }

    method ReadObject() returns (threw: bool, ok: bool)
      requires Valid() && nodes != []
      modifies this
      ensures Valid() || threw
      ensures Did(ReadMembers(c, "", [], old(Here())), old(nodes), threw, ok)
      decreases |c.document| - current, 3
    {
      hide Scan, Regular, MemberTurn;
      ghost var stack := nodes;
      SetCurrentValue(Obj([]));
      var name := "";
      while true
        invariant Valid() && nodes != [] && CurrentValue().Obj?
        invariant nodes == stack[..|stack| - 1] + [CurrentValue()]
        invariant ReadMembers(c, name, CurrentValue().entries, Here()) == ReadMembers(c, "", [], old(Here()))
        invariant old(current) <= current
        decreases |c.document| - current
      {
        var more;
        threw, ok, more, name := ReadNameAndMember(name);
        if !more {
          return;
        }
      }
    }

    /** A turn of the loop of readArray. */
    method ReadItem(index: nat) returns (threw: bool, ok: bool, more: bool)
      requires Valid() && nodes != [] && CurrentValue().Arr?
      modifies this
      ensures Valid() || threw
      ensures DidTurn(ItemTurn(c, index, old(CurrentValue().entries), old(Here())), old(nodes), threw, ok, more)
      decreases |c.document| - current, 1
    {
      hide Scan, ScanPastComments, NextToken, RecoverEnd, Put, LowerBound, Regular, RegularTurn, JsonStrings.Decode, JsonParsing.ReadValue;
      more := false;
      nodes := nodes + [Null];
      threw, ok := ReadValue();
      if threw {
        return;
      }
      PopInto(Index(index));
      if !ok {
        ok := RecoverFromError(ArrayEnd);
        return;
      }
      var token := ReadPastComments();
      if token.kind != ArraySeparator && token.kind != ArrayEnd {
        ok := AddErrorAndRecover(MissingCommaOrBracket, token, ArrayEnd);
        return;
      }
      more := token.kind != ArrayEnd;
    }

    method ReadArray() returns (threw: bool, ok: bool)
      requires Valid() && nodes != []
      modifies this
      ensures Valid() || threw
      ensures Did(JsonParsing.ReadArray(c, old(Here())), old(nodes), threw, ok)
      decreases |c.document| - current, 2
    {
      hide Scan, ScanPastComments, NextToken, RecoverEnd, Put, LowerBound, Regular, JsonStrings.Decode, ItemTurn;
      ghost var stack := nodes;
      SetCurrentValue(Arr([]));
      SkipSpaces();
      if Peek(c.document, current) == ']' {
        var _ := ReadToken();
        return false, true;
      }
      var index := 0;
      ghost var s1 := Here();
      while true
        invariant Valid() && nodes != [] && CurrentValue().Arr?
        invariant nodes == stack[..|stack| - 1] + [CurrentValue()]
        invariant ReadItems(c, index, CurrentValue().entries, Here()) == ReadItems(c, 0, [], s1)
        invariant old(current) <= current
        decreases |c.document| - current
      {
        var more;
        threw, ok, more := ReadItem(index);
        if !more {
          return;
        }
        index := index + 1;
      }
    }

    // -------------------------------------------------------------------------
    // Documents
    // -------------------------------------------------------------------------

    /** parse into a root value: the node stack ends with the root alone. */
    method Parse(root: Value) returns (threw: bool, ok: bool)
      modifies this
      ensures match JsonParsing.Parse(c, root)
              case Threw => threw
              case Done(done, v, s) =>
                !threw && ok == done && nodes == [v] && errors == s.errors && current == s.pos <= |c.document|
    {
      current, errors, nodes, stackDepth := 0, [], [root], 0;
      threw, ok := ReadValue();
      if threw {
        return;
      }
      var token := SkipCommentTokens();
      if c.strictRoot {
        if !CurrentValue().Arr? && !CurrentValue().Obj? {
          ok := AddError(RootMustBeContainer, Token(ErrorToken, 0, |c.document|), None);
        }
      }
    }
  }
}
