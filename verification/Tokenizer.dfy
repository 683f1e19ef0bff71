/**
 The tokenizer of configuration lines: tokens bare or in quotes, separated by commas or blanks.
 */
module Tokenizer {
  import opened Sequences

  predicate IsEol(c: char) {
    c == '\0' || c == '\n' || c == '\r'
  }

  predicate IsBlank(c: char) {
    c == ' ' || c == '\t'
  }

  predicate IsQuote(c: char) {
    c == '"' || c == '\''
  }

  /** How many characters come before the first at which `stop` holds. */
  ghost function Span(s: string, stop: char -> bool): (n: nat)
    ensures n <= |s| && (n < |s| ==> stop(s[n]))
    ensures forall i :: 0 <= i < n ==> !stop(s[i])
  {
    if s == "" || stop(s[0]) then 0 else 1 + Span(s[1..], stop)
  }

  lemma {:induction false} SpanIs(a: string, b: string, stop: char -> bool)
    requires forall i :: 0 <= i < |a| ==> !stop(a[i])
    requires b == "" || stop(b[0])
    ensures Span(a + b, stop) == |a|
  {
    if a == "" {
      assert a + b == b;
    } else {
      assert (a + b)[1..] == a[1..] + b;
      SpanIs(a[1..], b, stop);
    }
  }

  function NotBlank(): char -> bool {
    c => !IsBlank(c)
  }

  function EndsQuoted(mark: char): char -> bool {
    c => c == mark || IsEol(c)
  }

  function EndsBare(): char -> bool {
    c => IsBlank(c) || c == ',' || IsEol(c)
  }

  predicate Ended(s: string) {
    s == "" || s[0] == '\0' || s[0] == '\n' || s[0] == '\r'
  }

  /** The characters of a quoted token after its opening mark, and what follows its closing one. */
  ghost function Inside(s: string, mark: char): (r: (string, string))
    ensures |r.1| <= |s|
  {
    var n := Span(s, EndsQuoted(mark));
    (s[..n], if n < |s| && s[n] == mark then s[n + 1..] else s[n..])
  }

  ghost function Bare(s: string): (r: (string, string))
    ensures |r.1| <= |s|
  {
    var n := Span(s, EndsBare());
    (s[..n], s[n..])
  }

  /** A token at the beginning of s, and what follows it. */
  ghost function Token(s: string): (r: (string, string))
    requires !Ended(s) && !IsBlank(s[0])
    ensures |r.1| < |s| || (r.1 == s && s[0] == ',')
  {
    if IsQuote(s[0]) then Inside(s[1..], s[0]) else Bare(s)
  }

  ghost function SkipBlanks(s: string): string {
    s[Span(s, NotBlank())..]
  }

  ghost function SkipComma(s: string): string {
    if s != "" && s[0] == ',' then s[1..] else s
  }

  /** The tokens of a line. */
  ghost function Tokens(s: string): seq<string>
    decreases |s|
  {
    var t := SkipBlanks(s);
    if Ended(s) || Ended(t) then []
    else
      var (token, rest) := Token(t);
      [token] + Tokens(SkipComma(SkipBlanks(rest)))
  }

  // ---------------------------------------------------------------------------
  // CTokenizer::parse
  // ---------------------------------------------------------------------------

  /** *in: the terminating NUL of the C string beyond its characters. */
  function At(input: string, i: nat): char {
    if i < |input| then input[i] else '\0'
  }

  /** Skipping blanks from position i. */
  method PastBlanks(input: string, i: nat) returns (j: nat)
    requires i <= |input|
    ensures i <= j <= |input| && input[j..] == SkipBlanks(input[i..]) && !IsBlank(At(input, j))
    ensures !IsBlank(At(input, i)) ==> j == i
  {
    j := i;
    while IsBlank(At(input, j))
      invariant i <= j <= |input| && forall k :: i <= k < j ==> IsBlank(input[k])
      decreases |input| - j
    {
      j := j + 1;
    }
    assert input[i..] == input[i..j] + input[j..];
    SpanIs(input[i..j], input[j..], NotBlank());
  }

  /** The size of the buffer a token is written to, with its NUL. */
  const TOKEN_SIZE := 512

  /** `*out = c`, out being `at` characters into the buffer: false, and no write, when that is outside. */
  method Store(buffer: array<char>, at: nat, c: char) returns (inside: bool)
    modifies buffer
    ensures inside <==> at < buffer.Length
    ensures inside ==> buffer[..at] == old(buffer[..at]) && buffer[at] == c
  {
    inside := at < buffer.Length;
    if inside {
      buffer[at] := c;
    }
  }

  /** The loop over the characters of one token.  `fits` says that every write is inside the buffer;
      then the buffer begins with the token. */
  method Characters(input: string, i: nat, inQuotes: char, buffer: array<char>) returns (token: string, j: nat, fits: bool)
    requires i <= |input| && (inQuotes == '\0' || IsQuote(inQuotes)) && buffer.Length == TOKEN_SIZE
    modifies buffer
    ensures i <= j <= |input|
    ensures inQuotes != '\0' ==> token == Inside(input[i..], inQuotes).0 && input[j..] == Inside(input[i..], inQuotes).1
    ensures inQuotes == '\0' ==> token == Bare(input[i..]).0 && input[j..] == Bare(input[i..]).1
    ensures inQuotes == '\0' && j == i < |input| ==> EndsBare()(input[i])
    ensures (fits <==> |token| <= TOKEN_SIZE) && (fits ==> buffer[..|token|] == token)
  {
    hide Inside, Bare, Span;
    token, j, fits := "", i, true;
    ghost var stop := if inQuotes == '\0' then EndsBare() else EndsQuoted(inQuotes);
    while !IsEol(At(input, j))
      invariant i <= j <= |input| && token == input[i..j]
      invariant forall k :: i <= k < j ==> !stop(input[k])
      invariant (fits <==> |token| <= TOKEN_SIZE) && (fits ==> buffer[..|token|] == token)
      decreases |input| - j
    {
      if inQuotes != '\0' {
        if At(input, j) == inQuotes {
          InsideIs(input, i, j, inQuotes);
          return token, j + 1, fits;
        }
      } else if IsBlank(At(input, j)) || At(input, j) == ',' {
        break;
      }
      var inside := Store(buffer, |token|, At(input, j));
      fits := fits && inside;
      token := token + [At(input, j)];
      j := j + 1;
    }
    if inQuotes == '\0' {
      BareIs(input, i, j);
    } else {
      InsideIs(input, i, j, inQuotes);
    }
  }

  lemma InsideIs(input: string, i: nat, j: nat, mark: char)
    requires i <= j <= |input| && !IsEol(mark)
    requires forall k :: i <= k < j ==> !EndsQuoted(mark)(input[k])
    requires j == |input| || EndsQuoted(mark)(input[j])
    ensures var r := Inside(input[i..], mark);
            r.0 == input[i..j] && r.1 == if j < |input| && input[j] == mark then input[j + 1..] else input[j..]
  {
    Stops(input, i, j, EndsQuoted(mark));
    InsideUnfold(input[i..], mark);
    hide *;
    Slices(input, i, j - i);
    if j < |input| {
      Slices(input, i, j - i + 1);
    }
  }

  lemma InsideUnfold(s: string, mark: char)
    ensures var n := Span(s, EndsQuoted(mark));
            && n <= |s| && Inside(s, mark).0 == s[..n]
            && Inside(s, mark).1 == if n < |s| && s[n] == mark then s[n + 1..] else s[n..]
  {
    hide Span, EndsQuoted;
  }

  lemma Stops(input: string, i: nat, j: nat, stop: char -> bool)
    requires i <= j <= |input|
    requires forall k :: i <= k < j ==> !stop(input[k])
    requires j == |input| || stop(input[j])
    ensures Span(input[i..], stop) == j - i
  {
    assert input[i..] == input[i..j] + input[j..];
    SpanIs(input[i..j], input[j..], stop);
  }

  lemma BareIs(input: string, i: nat, j: nat)
    requires i <= j <= |input|
    requires forall k :: i <= k < j ==> !EndsBare()(input[k])
    requires j == |input| || EndsBare()(input[j])
    ensures Bare(input[i..]) == (input[i..j], input[j..])
  {
    Stops(input, i, j, EndsBare());
    hide Span, EndsBare;
    Slices(input, i, j - i);
  }

  lemma Slices(input: string, at: nat, n: nat)
    requires at + n <= |input|
    ensures input[at..][..n] == input[at..at + n] && input[at..][n..] == input[at + n..]
  {
  }

  /** The part of parse that fetches a token.  All its writes stay inside the buffer if and only if
      the token has fewer than 512 characters; then the buffer holds it as a C string. */
  method OneToken(input: string, at: nat, buffer: array<char>) returns (token: string, i: nat, fits: bool)
    requires at < |input| && !IsEol(input[at]) && !IsBlank(input[at]) && buffer.Length == TOKEN_SIZE
    modifies buffer
    ensures at <= i <= |input| && token == Token(input[at..]).0 && input[i..] == Token(input[at..]).1
    ensures i == at ==> input[at] == ','
    ensures (fits <==> |token| < TOKEN_SIZE) && (fits ==> buffer[..|token|] == token && buffer[|token|] == '\0')
  {
    hide Token, Inside, Bare, Span;
    TokenIs(input[at..]);
    assert input[at..][0] == input[at] && input[at..][1..] == input[at + 1..];
    i := at;
    var inQuotes := '\0';
    if IsQuote(At(input, i)) {
      inQuotes := At(input, i);
      i := i + 1;
    }
    token, i, fits := Characters(input, i, inQuotes, buffer);
    var inside := Store(buffer, |token|, '\0');
    fits := fits && inside;
  }

  ghost predicate AllFit(tokens: seq<string>) {
    forall i :: 0 <= i < |tokens| ==> |tokens[i]| < TOKEN_SIZE
  }

  lemma FitNext(tokens: seq<string>, token: string)
    ensures AllFit(tokens + [token]) <==> AllFit(tokens) && |token| < TOKEN_SIZE
  {
    var more := tokens + [token];
    assert more[|tokens|] == token;
    assert forall i :: 0 <= i < |tokens| ==> more[i] == tokens[i];
  }

  /** The tokens of the line, whatever its length; `fits` says that the parse stays inside its token
      buffer, which it does if and only if every token has fewer than 512 characters. */
  method Parse(input: string) returns (result: seq<string>, fits: bool)
    ensures result == Tokens(input) && (fits <==> AllFit(Tokens(input)))
  {
    hide Tokens, Token, Inside, Bare, Span, SkipBlanks, SkipComma, EndsQuoted, EndsBare, IsQuote;
    var buffer := new char[TOKEN_SIZE];
    result, fits := [], true;
    var i := 0;
    assert input[0..] == input;
    while !IsEol(At(input, i))
      invariant 0 <= i <= |input| && Tokens(input) == result + Tokens(input[i..])
      invariant fits <==> AllFit(result)
      decreases |input| - i
    {
      hide AllFit;
      TokensStep(input[i..]);
      i := PastBlanks(input, i);
      if IsEol(At(input, i)) {
        return;
      }
      var token, inside;
      token, i, inside := OneToken(input, i, buffer);
      FitNext(result, token);
      fits := fits && inside;
      Assoc(result, [token], Tokens(SkipComma(SkipBlanks(input[i..]))));
      result := result + [token];
      i := PastBlanks(input, i);
      Comma(input, i);
      if At(input, i) == ',' {
        i := i + 1;
      }
    }
    TokensStep(input[i..]);
  }

  lemma Comma(input: string, i: nat)
    requires i <= |input|
    ensures SkipComma(input[i..]) == if At(input, i) == ',' then input[i + 1..] else input[i..]
  {
  }

  lemma TokensStep(s: string)
    ensures var t := SkipBlanks(s);
            if Ended(s) || Ended(t) then Tokens(s) == []
            else Tokens(s) == [Token(t).0] + Tokens(SkipComma(SkipBlanks(Token(t).1)))
  {
    hide Token, SkipBlanks, SkipComma;
  }

  lemma TokenIs(s: string)
    requires !Ended(s) && !IsBlank(s[0])
    ensures Token(s) == if IsQuote(s[0]) then Inside(s[1..], s[0]) else Bare(s)
  {
    hide Inside, Bare;
  }

  // ---------------------------------------------------------------------------
  // Writing tokens down
  // ---------------------------------------------------------------------------

  /** A token as it can stand in a line: between two marks of a kind it lacks, or bare. */
  datatype Written = InQuotes(mark: char, text: string) | Plain(text: string)

  /** A token with the blanks around it, and whether a comma comes after. */
  datatype Item = Item(lead: string, token: Written, trail: string, comma: bool)

  predicate AllBlank(s: string) {
    forall i :: 0 <= i < |s| ==> s[i] == ' ' || s[i] == '\t'
  }

  predicate OneLine(s: string) {
    forall i :: 0 <= i < |s| ==> s[i] != '\0' && s[i] != '\n' && s[i] != '\r'
  }

  predicate GoodToken(w: Written) {
    match w
    case InQuotes(mark, text) => (mark == '"' || mark == '\'') && mark !in text && OneLine(text)
    case Plain(text) =>
      && ' ' !in text && '\t' !in text && ',' !in text && OneLine(text)
      && (text != "" ==> text[0] != '"' && text[0] != '\'')
  }

  /** An empty bare token is told by the comma right after it.  Without a comma a bare token needs
      a blank after it, unless it is the last, and an empty one cannot come next. */
  predicate GoodItems(items: seq<Item>)
    decreases |items|
  {
    items == [] ||
    var it, rest := items[0], items[1..];
    && AllBlank(it.lead) && AllBlank(it.trail) && GoodToken(it.token) && GoodItems(rest)
    && (it.token == Plain("") ==> it.comma && it.trail == "")
    && (!it.comma ==>
          (rest != [] ==> rest[0].token != Plain("") && (it.token.Plain? ==> it.trail != "")))
  }

  function TokenText(w: Written): string {
    match w
    case InQuotes(mark, text) => [mark] + (text + [mark])
    case Plain(text) => text
  }

  /** The items as a line, followed by `end`. */
  function Line(items: seq<Item>, end: string): string {
    if items == [] then end
    else items[0].lead + (TokenText(items[0].token) + (items[0].trail + ((if items[0].comma then "," else "") + Line(items[1..], end))))
  }

  function Texts(items: seq<Item>): seq<string> {
    if items == [] then [] else [items[0].token.text] + Texts(items[1..])
  }

  lemma SkipOver(blanks: string, s: string)
    requires AllBlank(blanks) && (s == "" || !IsBlank(s[0]))
    ensures SkipBlanks(blanks + s) == s
  {
    SpanIs(blanks, s, NotBlank());
  }

  lemma {:induction false} SkipMore(blanks: string, s: string)
    requires AllBlank(blanks)
    ensures SkipBlanks(blanks + s) == SkipBlanks(s)
  {
    if blanks == "" {
      assert blanks + s == s;
    } else {
      assert (blanks + s)[1..] == blanks[1..] + s;
      SkipMore(blanks[1..], s);
    }
  }

  lemma SkippedStarts(s: string)
    ensures SkipBlanks(s) == "" || !IsBlank(SkipBlanks(s)[0])
  {
    var n := Span(s, NotBlank());
    hide Span, IsBlank;
    assert n < |s| ==> s[n..][0] == s[n];
  }

  lemma SkipTwice(s: string)
    ensures SkipBlanks(SkipBlanks(s)) == SkipBlanks(s)
  {
    SkippedStarts(s);
    SkipNone(SkipBlanks(s));
    hide SkipBlanks;
  }

  lemma SkipEnded(s: string)
    requires Ended(s)
    ensures SkipBlanks(s) == s
  {
    SkipNone(s);
    hide SkipBlanks;
  }

  lemma SkipNone(s: string)
    requires s == "" || !IsBlank(s[0])
    ensures SkipBlanks(s) == s
  {
    assert "" + s == s;
    SkipOver("", s);
    hide SkipBlanks;
  }

  /** Blanks before a line do not matter. */
  lemma TokensSkip(s: string)
    ensures Tokens(SkipBlanks(s)) == Tokens(s)
  {
    SkipTwice(s);
    if Ended(s) {
      SkipEnded(s);
    }
    TokensStep(s);
    TokensStep(SkipBlanks(s));
    hide Tokens, Token, SkipBlanks, SkipComma;
  }

  /** What can follow a bare token. */
  predicate Breaks(s: string) {
    s == "" || EndsBare()(s[0])
  }

  lemma WrittenToken(w: Written, after: string)
    requires GoodToken(w) && (w.Plain? ==> Breaks(after)) && (w == Plain("") ==> after != "" && after[0] == ',')
    ensures var x := TokenText(w) + after;
            !Ended(x) && !IsBlank(x[0]) && Token(x).0 == w.text && Token(x).1 == after
  {
    match w {
      case InQuotes(mark, text) => WrittenQuoted(mark, text, after);
      case Plain(text) => WrittenPlain(text, after);
    }
    hide Token;
  }

  lemma WrittenQuoted(mark: char, text: string, after: string)
    requires GoodToken(InQuotes(mark, text))
    ensures var x := ([mark] + (text + [mark])) + after;
            !Ended(x) && !IsBlank(x[0]) && Token(x).0 == text && Token(x).1 == after
  {
    var x := ([mark] + (text + [mark])) + after;
    var body := text + ([mark] + after);
    Enclosed(mark, text, after);
    TokenIs(x);
    SpanIs(text, [mark] + after, EndsQuoted(mark));
    InsideUnfold(body, mark);
    hide Token, Inside, Span, EndsQuoted;
  }

  lemma Enclosed(mark: char, text: string, after: string)
    ensures var x, body := ([mark] + (text + [mark])) + after, text + ([mark] + after);
            && x[0] == mark && x[1..] == body
            && body[..|text|] == text && body[|text|] == mark && body[|text| + 1..] == after
  {
  }

  lemma WrittenPlain(text: string, after: string)
    requires GoodToken(Plain(text)) && Breaks(after) && (text == "" ==> after != "" && after[0] == ',')
    ensures var x := text + after;
            !Ended(x) && !IsBlank(x[0]) && Token(x).0 == text && Token(x).1 == after
  {
    var x := text + after;
    SpanIs(text, after, EndsBare());
    assert x[0] == if text == "" then after[0] else text[0];
    TokenIs(x);
    hide Token, Span, Inside;
    assert x[..|text|] == text && x[|text|..] == after;
  }

  /** What the rest of a line looks like to the token before it when there is no comma. */
  lemma AfterBlanks(items: seq<Item>, blanks: string, end: string)
    requires GoodItems(items) && AllBlank(blanks) && Ended(end) && (items != [] ==> items[0].token != Plain(""))
    ensures var t := SkipBlanks(Line(items, blanks + end)); t == "" || t[0] != ','
  {
    if items == [] {
      SkipOver(blanks, end);
    } else {
      var it := items[0];
      var x := TokenText(it.token) + (it.trail + ((if it.comma then "," else "") + Line(items[1..], blanks + end)));
      assert x[0] == TokenText(it.token)[0];
      SkipOver(it.lead, x);
    }
  }

  /** A line of written tokens gives back their texts: whatever the blanks, whatever mix of bare
      and quoted tokens, and whatever follows the end of the line. */
  lemma {:induction false} RoundTrip(items: seq<Item>, blanks: string, end: string)
    requires GoodItems(items) && AllBlank(blanks) && Ended(end)
    ensures Tokens(Line(items, blanks + end)) == Texts(items)
    decreases |items|
  {
    if items == [] {
      SkipOver(blanks, end);
      TokensStep(blanks + end);
    } else {
      var it, rest := items[0], items[1..];
      RoundTrip(rest, blanks, end);
      FirstItem(items, blanks, end);
      hide *;
      var line := Line(rest, blanks + end);
      var after := it.trail + ((if it.comma then "," else "") + line);
      var x := TokenText(it.token) + after;
      WrittenToken(it.token, after);
      SkipOver(it.lead, x);
      NotEnded(it.lead, x);
      TokensStep(it.lead + x);
      Separated(it.trail, it.comma, line);
      TokensSkip(line);
    }
  }

  lemma NotEnded(lead: string, x: string)
    requires AllBlank(lead) && !Ended(x)
    ensures !Ended(lead + x)
  {
  }

  lemma Separated(trail: string, comma: bool, line: string)
    requires AllBlank(trail) && (!comma ==> var t := SkipBlanks(line); t == "" || t[0] != ',')
    ensures SkipComma(SkipBlanks(trail + ((if comma then "," else "") + line))) == if comma then line else SkipBlanks(line)
  {
    if comma {
      SkipOver(trail, "," + line);
      assert ("," + line)[1..] == line;
    } else {
      assert "" + line == line;
      SkipMore(trail, line);
    }
    hide SkipBlanks;
  }

  lemma FirstItem(items: seq<Item>, blanks: string, end: string)
    requires items != [] && GoodItems(items) && AllBlank(blanks) && Ended(end)
    ensures var it, rest := items[0], items[1..];
            var line := Line(rest, blanks + end);
            var after := it.trail + ((if it.comma then "," else "") + line);
            && Line(items, blanks + end) == it.lead + (TokenText(it.token) + after)
            && Texts(items) == [it.token.text] + Texts(rest)
            && AllBlank(it.lead) && AllBlank(it.trail) && GoodToken(it.token)
            && (it.token.Plain? ==> Breaks(after)) && (it.token == Plain("") ==> after != "" && after[0] == ',')
            && (!it.comma ==> var t := SkipBlanks(line); t == "" || t[0] != ',')
  {
    var it, rest := items[0], items[1..];
    if !it.comma {
      AfterBlanks(rest, blanks, end);
    }
    hide SkipBlanks, Texts, GoodToken;
  }

  lemma UnclosedToken(mark: char, text: string, end: string)
    requires (mark == '"' || mark == '\'') && mark !in text && OneLine(text) && Ended(end)
    ensures var s := [mark] + (text + end); !Ended(s) && !IsBlank(s[0]) && Token(s).0 == text && Token(s).1 == end
  {
    var s := [mark] + (text + end);
    assert s[1..] == text + end;
    SpanIs(text, end, EndsQuoted(mark));
    InsideUnfold(text + end, mark);
    assert (text + end)[..|text|] == text && (text + end)[|text|..] == end;
    assert end != "" ==> (text + end)[|text|] == end[0] && end[0] != mark;
    TokenIs(s);
    hide Token, Inside, Span, EndsQuoted;
  }

  lemma NoComma(end: string)
    requires Ended(end)
    ensures SkipComma(end) == end && Tokens(end) == []
  {
    TokensStep(end);
    hide Tokens, SkipBlanks, Token;
  }

  /** A quoted token that is not closed reaches to the end of the line. */
  lemma Unclosed(lead: string, mark: char, text: string, end: string)
    requires AllBlank(lead) && (mark == '"' || mark == '\'') && mark !in text && OneLine(text) && Ended(end)
    ensures Tokens(lead + ([mark] + (text + end))) == [text]
  {
    var s := [mark] + (text + end);
    hide *;
    UnclosedToken(mark, text, end);
    NotEnded(lead, s);
    SkipOver(lead, s);
    TokensStep(lead + s);
    SkipEnded(end);
    NoComma(end);
  }

  /** A kind of quote mark that a text lacks, if there is one. */
  function MarkFor(text: string): char {
    if '"' !in text then '"' else '\''
  }

  predicate Quotable(text: string) {
    MarkFor(text) !in text && OneLine(text)
  }

  function Quoted(texts: seq<string>): seq<Item> {
    if texts == [] then [] else [Item("", InQuotes(MarkFor(texts[0]), texts[0]), "", true)] + Quoted(texts[1..])
  }

  /** So any texts that lack a kind of quote mark and the end-of-line characters, among them empty
      texts and texts of blanks and commas, can be written in one line and read back. */
  lemma QuotingIsUndone(texts: seq<string>, end: string)
    requires (forall i :: 0 <= i < |texts| ==> Quotable(texts[i])) && Ended(end)
    ensures Tokens(Line(Quoted(texts), end)) == texts
  {
    QuotedIsGood(texts);
    RoundTrip(Quoted(texts), "", end);
    hide *;
    assert "" + end == end;
  }

  lemma {:induction false} QuotedIsGood(texts: seq<string>)
    requires forall i :: 0 <= i < |texts| ==> Quotable(texts[i])
    ensures GoodItems(Quoted(texts)) && Texts(Quoted(texts)) == texts
  {
    if texts != [] {
      assert Quotable(texts[0]);
      forall i | 0 <= i < |texts[1..]| ensures Quotable(texts[1..][i]) {
        assert texts[1..][i] == texts[i + 1];
      }
      QuotedIsGood(texts[1..]);
    }
  }
}
