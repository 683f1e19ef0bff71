/**
 White space and comments, and what the reader takes for a separator after a comment: a text of the
 grammar at a position of the document, and the token that is read there.
 */
module JsonGaps {
  import opened JsonValues
  import opened JsonScanner
  import opened JsonParsing
  import opened JsonStrings
  import opened JsonTokens
  import opened JsonGrammar

  // ---------------------------------------------------------------------------
  // Comments
  // ---------------------------------------------------------------------------

  predicate StarSlash(document: string, j: nat) {
    j + 1 < |document| && document[j] == '*' && document[j + 1] == '/'
  }

  /** The first star that a slash follows. */
  lemma {:induction false} StarEndIs(document: string, i: nat)
    requires i <= |document|
    ensures var k := StarEnd(document, i);
            && (forall j :: i <= j < k - 1 ==> !StarSlash(document, j))
            && (k < |document| ==> i < k && StarSlash(document, k - 1))
            && (k == |document| ==> forall j :: i <= j < k ==> !StarSlash(document, j))
    decreases |document| - i
  {
    if i < |document| && !StarSlash(document, i) {
      StarEndIs(document, i + 1);
    }
  }

  predicate LineBreak(c: char) {
    c == '\n' || c == '\r'
  }

  /** The first line break, of one character or two. */
  lemma {:induction false} LineEndIs(document: string, i: nat)
    requires i <= |document|
    ensures var k := LineEnd(document, i);
            || (k == |document| && forall j :: i <= j < k ==> !LineBreak(document[j]))
            || (exists b :: i <= b < k && LineBreak(document[b]) && (forall j :: i <= j < b ==> !LineBreak(document[j]))
                  && k == if document[b] == '\r' && Peek(document, b + 1) == '\n' then b + 2 else b + 1)
    decreases |document| - i
  {
    if i < |document| {
      if LineBreak(document[i]) {
        assert i <= i < LineEnd(document, i);
      } else {
        LineEndIs(document, i + 1);
      }
    }
  }

  lemma BlockCommentAt(document: string, i: nat, end: nat)
    requires i <= end <= |document|
    ensures BlockComment(document[i..end]) <==>
            && i + 4 <= end && document[i] == '/' && document[i + 1] == '*' && StarSlash(document, end - 2)
            && forall j :: i + 2 <= j < end - 2 ==> !StarSlash(document, j)
  {
    var t := document[i..end];
    if i + 4 <= end {
      assert forall j :: i <= j < end ==> document[j] == t[j - i];
      assert forall k :: 0 <= k < |t| ==> t[k] == document[i + k];
      if BlockComment(t) {
        forall j | i + 2 <= j < end - 2 ensures !StarSlash(document, j) {
          assert !(t[j - i] == '*' && t[j - i + 1] == '/');
        }
      } else if StarSlash(document, end - 2) && forall j :: i + 2 <= j < end - 2 ==> !StarSlash(document, j) {
        forall k | 2 <= k < |t| - 2 ensures !(t[k] == '*' && t[k + 1] == '/') {
          assert !StarSlash(document, i + k);
        }
      }
    }
  }

  /** Where the body of the line comment in document[i..end] ends. */
  function BodyEnd(document: string, i: nat, end: nat): nat
    requires i + 3 <= end <= |document|
  {
    if document[end - 2] == '\r' && document[end - 1] == '\n' then end - 2 else end - 1
  }

  lemma LineCommentAt(document: string, i: nat, end: nat)
    requires i <= end <= |document|
    ensures LineComment(document[i..end]) <==>
            && i + 3 <= end && document[i] == '/' && document[i + 1] == '/' && LineBreak(document[end - 1])
            && forall j :: i + 2 <= j < BodyEnd(document, i, end) ==> !LineBreak(document[j])
  {
    var t := document[i..end];
    if i + 3 <= end {
      assert forall j :: i <= j < end ==> document[j] == t[j - i];
      assert forall k :: 0 <= k < |t| ==> t[k] == document[i + k];
      var body := BodyEnd(document, i, end);
      if LineComment(t) {
        forall j | i + 2 <= j < body ensures !LineBreak(document[j]) {
          assert t[j - i] != '\n' && t[j - i] != '\r';
        }
      } else if forall j :: i + 2 <= j < body ==> !LineBreak(document[j]) {
        forall k | 2 <= k < body - i ensures t[k] != '\n' && t[k] != '\r' {
          assert !LineBreak(document[i + k]);
        }
      }
    }
  }

  /** A comment is read to its end; a line feed after a carriage return that ends it is read with it. */
  lemma CommentIsRead(document: string, i: nat, end: nat)
    requires i < end <= |document| && IsComment(document[i..end])
    ensures document[i] == '/' && CommentEnd(document, i + 1).ok
    ensures var e := CommentEnd(document, i + 1).end;
            e == end || (e == end + 1 && document[end] == '\n')
  {
    BlockCommentAt(document, i, end);
    LineCommentAt(document, i, end);
    StarEndIs(document, i + 2);
    LineEndIs(document, i + 2);
    hide StarEnd, LineEnd, BlockComment, LineComment;
    if BlockComment(document[i..end]) {
      var k := StarEnd(document, i + 2);
      assert StarSlash(document, end - 2);
      assert k == end - 1;
    } else {
      var b := BodyEnd(document, i, end);
      assert LineBreak(document[b]);
    }
  }

  /** What is read for a comment, unless it reaches the end of the document, is one. */
  lemma ReadCommentIs(document: string, i: nat)
    requires i < |document| && document[i] == '/'
    ensures var e := CommentEnd(document, i + 1);
            e.ok && e.end < |document| ==> i < e.end && IsComment(document[i..e.end])
  {
    var e := CommentEnd(document, i + 1);
    if e.ok && e.end < |document| {
      BlockCommentAt(document, i, e.end);
      LineCommentAt(document, i, e.end);
      StarEndIs(document, i + 2);
      LineEndIs(document, i + 2);
      hide StarEnd, LineEnd, BlockComment, LineComment;
    }
  }

  // ---------------------------------------------------------------------------
  // Gaps
  // ---------------------------------------------------------------------------

  lemma SpaceSkipped(document: string, i: nat)
    requires i < |document| && IsSpace(document[i])
    ensures SpacesEnd(document, i) == SpacesEnd(document, i + 1)
    ensures Scan(document, i) == Scan(document, i + 1)
    ensures ScanPastComments(document, i) == ScanPastComments(document, i + 1)
  {
    ScanFrom(document, i);
    ScanFrom(document, i + 1);
    PastOneComment(document, i);
    PastOneComment(document, i + 1);
    hide Scan, ScanPastComments;
  }

  lemma SpacesEndTwice(document: string, i: nat)
    requires i <= |document|
    ensures SpacesEnd(document, SpacesEnd(document, i)) == SpacesEnd(document, i)
    ensures var k := SpacesEnd(document, i); k == |document| || !IsSpace(document[k])
    decreases |document| - i
  {
    if i < |document| && IsSpace(document[i]) {
      SpacesEndTwice(document, i + 1);
    }
  }

  lemma ScanFrom(document: string, i: nat)
    requires i <= |document|
    ensures Scan(document, i) == Scan(document, SpacesEnd(document, i))
  {
    SpacesEndTwice(document, i);
    hide SpacesEnd, StringEnd, CommentEnd, LiteralEnd, NumberEnd;
  }

  lemma {:induction false} BlankSkipped(document: string, i: nat, w: string)
    requires Blank(w) && At(document, i, w)
    ensures i + |w| <= |document|
    ensures Scan(document, i) == Scan(document, i + |w|)
    ensures ScanPastComments(document, i) == ScanPastComments(document, i + |w|)
    decreases |w|
  {
    hide Scan, ScanPastComments;
    if w != "" {
      AtFirst(document, i, w);
      SpaceSkipped(document, i);
      BlankSkipped(document, i + 1, w[1..]);
    }
  }

  lemma AtFirst(document: string, i: nat, w: string)
    requires w != "" && At(document, i, w)
    ensures i < |document| && document[i] == w[0] && At(document, i + 1, w[1..])
  {
    AtChar(document, i, w, 0);
    AtConcat(document, i, [w[0]], w[1..]);
    assert [w[0]] + w[1..] == w;
  }

  lemma AtSplit(document: string, i: nat, w: string, k: nat)
    requires k <= |w| && At(document, i, w)
    ensures i + k <= |document| && document[i..i + k] == w[..k] && At(document, i + k, w[k..])
  {
    AtConcat(document, i, w[..k], w[k..]);
    assert w[..k] + w[k..] == w;
  }

  lemma SlashScanned(document: string, i: nat)
    requires i < |document| && document[i] == '/'
    ensures SpacesEnd(document, i) == i
    ensures Scan(document, i) == TokenOf(Comment, i, CommentEnd(document, i + 1))
  {
    hide CommentEnd;
  }

  lemma GapUnfold(g: string, comments: bool)
    ensures Gap(g, comments) <==>
            || g == ""
            || (IsSpace(g[0]) && Gap(g[1..], comments))
            || (comments && exists k :: 0 < k <= |g| && IsComment(g[..k]) && Gap(g[k..], comments))
  {
  }

  lemma CommentStart(t: string)
    requires IsComment(t)
    ensures t != "" && t[0] == '/'
  {
  }

  lemma CommentScanned(document: string, i: nat, end: nat)
    requires i < end <= |document| && IsComment(document[i..end])
    ensures Scan(document, i).kind == Comment
    ensures ScanPastComments(document, i) == ScanPastComments(document, end)
  {
    hide *;
    CommentIsRead(document, i, end);
    SlashScanned(document, i);
    PastOneComment(document, i);
    TokenOfIs(Comment, i, CommentEnd(document, i + 1));
    if CommentEnd(document, i + 1).end == end + 1 {
      LineFeedIsSpace();
      SpaceSkipped(document, end);
    }
  }

  lemma TokenOfIs(kind: TokenType, start: nat, e: Extent)
    ensures TokenOf(kind, start, e) == Token(if e.ok then kind else ErrorToken, start, e.end)
  {
  }

  lemma LineFeedIsSpace()
    ensures IsSpace('\n') && !IsSpace('/')
  {
  }

  /** A gap is passed over on the way to the next token that is no comment. */
  lemma {:induction false} GapSkipped(document: string, i: nat, g: string)
    requires Gap(g, true) && At(document, i, g)
    ensures i + |g| <= |document|
    ensures ScanPastComments(document, i) == ScanPastComments(document, i + |g|)
    ensures g != "" ==> IsSpace(document[i]) || document[i] == '/'
    ensures Blank(g) || Scan(document, i).kind == Comment
    decreases |g|
  {
    hide *;
    AtBound(document, i, g);
    GapUnfold(g, true);
    BlankUnfold(g);
    if g != "" {
      if IsSpace(g[0]) && Gap(g[1..], true) {
        AtFirst(document, i, g);
        SpaceSkipped(document, i);
        GapSkipped(document, i + 1, g[1..]);
      } else {
        var k :| 0 < k <= |g| && IsComment(g[..k]) && Gap(g[k..], true);
        AtSplit(document, i, g, k);
        CommentStart(g[..k]);
        AtFirst(document, i, g);
        CommentScanned(document, i, i + k);
        GapSkipped(document, i + k, g[k..]);
      }
    }
  }

  lemma BlankUnfold(w: string)
    ensures Blank(w) <==> w == "" || (IsSpace(w[0]) && Blank(w[1..]))
  {
    if w != "" && IsSpace(w[0]) && Blank(w[1..]) {
      forall i | 0 <= i < |w| ensures IsSpace(w[i]) {
        assert i > 0 ==> w[i] == w[1..][i - 1];
      }
    }
  }

  lemma {:induction false} GapIsBlank(g: string)
    requires Gap(g, false)
    ensures Blank(g)
    decreases |g|
  {
    hide *;
    GapUnfold(g, false);
    BlankUnfold(g);
    if g != "" {
      GapIsBlank(g[1..]);
    }
  }

  lemma NextTokenChoice(c: Config, i: nat)
    requires i <= |c.document|
    ensures NextToken(c, i) == if c.allowComments then ScanPastComments(c.document, i) else Scan(c.document, i)
  {
  }

  /** The next token that skipCommentTokens returns is the one after the gap. */
  lemma NextTokenSkips(c: Config, i: nat, g: string)
    requires Gap(g, c.allowComments) && At(c.document, i, g)
    ensures i + |g| <= |c.document| && NextToken(c, i) == NextToken(c, i + |g|)
  {
    hide *;
    AtBound(c.document, i, g);
    NextTokenChoice(c, i);
    NextTokenChoice(c, i + |g|);
    if c.allowComments {
      GapSkipped(c.document, i, g);
    } else {
      GapIsBlank(g);
      BlankSkipped(c.document, i, g);
    }
  }

  lemma {:induction false} GapConcat(a: string, b: string, comments: bool)
    requires Gap(a, comments) && Gap(b, comments)
    ensures Gap(a + b, comments)
    decreases |a|
  {
    hide *;
    GapUnfold(a, comments);
    GapUnfold(a + b, comments);
    if a == "" {
      assert a + b == b;
    } else if IsSpace(a[0]) && Gap(a[1..], comments) {
      GapConcat(a[1..], b, comments);
      assert (a + b)[1..] == a[1..] + b;
    } else {
      var k :| 0 < k <= |a| && IsComment(a[..k]) && Gap(a[k..], comments);
      GapConcat(a[k..], b, comments);
      assert (a + b)[..k] == a[..k] && (a + b)[k..] == a[k..] + b;
    }
  }

  // ---------------------------------------------------------------------------
  // From tokens to gaps
  // ---------------------------------------------------------------------------

  lemma SpacesAreBlank(document: string, i: nat)
    requires i <= |document|
    ensures Blank(document[i..SpacesEnd(document, i)])
    decreases |document| - i
  {
    var end := SpacesEnd(document, i);
    if i < |document| && IsSpace(document[i]) {
      SpacesAreBlank(document, i + 1);
      assert document[i..end] == [document[i]] + document[i + 1..end];
    }
  }

  lemma ScanStart(document: string, i: nat)
    requires i <= |document|
    ensures Scan(document, i).start == SpacesEnd(document, i)
    ensures Scan(document, i).kind == Comment ==>
              var start := SpacesEnd(document, i);
              && start < |document| && document[start] == '/' && CommentEnd(document, start + 1).ok
              && Scan(document, i).end == CommentEnd(document, start + 1).end
  {
    hide SpacesEnd, StringEnd, CommentEnd, LiteralEnd, NumberEnd;
  }

  lemma SpacesComment(document: string, i: nat, start: nat, j: nat, end: nat)
    requires i <= start <= j <= end <= |document| && Blank(document[i..start])
    requires start < j && IsComment(document[start..j]) && Gap(document[j..end], true)
    ensures Gap(document[i..end], true)
  {
    hide *;
    var g := document[start..end];
    GapUnfold(g, true);
    var k := j - start;
    assert g[..k] == document[start..j] && g[k..] == document[j..end];
    BlankIsGap(document[i..start], true);
    GapConcat(document[i..start], g, true);
    assert document[i..start] + g == document[i..end];
  }

  /** Between a position and the next token that is no comment there is a gap. */
  lemma {:induction false} GapBefore(document: string, i: nat)
    requires i <= |document| && ScanPastComments(document, i).start < |document|
    ensures i <= ScanPastComments(document, i).start && Gap(document[i..ScanPastComments(document, i).start], true)
    decreases |document| - i
  {
    hide *;
    var t := Scan(document, i);
    PastOneComment(document, i);
    ScanStart(document, i);
    SpacesAreBlank(document, i);
    if t.kind == Comment {
      GapBefore(document, t.end);
      ReadCommentIs(document, t.start);
      SpacesComment(document, i, t.start, t.end, ScanPastComments(document, i).start);
    } else {
      BlankIsGap(document[i..t.start], true);
    }
  }

  lemma GapBeforeNext(c: Config, i: nat)
    requires i <= |c.document| && NextToken(c, i).start < |c.document|
    ensures i <= NextToken(c, i).start && Gap(c.document[i..NextToken(c, i).start], c.allowComments)
  {
    hide *;
    NextTokenChoice(c, i);
    if c.allowComments {
      GapBefore(c.document, i);
    } else {
      ScanStart(c.document, i);
      SpacesAreBlank(c.document, i);
      BlankIsGap(c.document[i..NextToken(c, i).start], false);
    }
  }
}
