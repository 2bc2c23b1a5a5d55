/** Two further views of `strip_jsonc` (`gates/typescript.py`): the scan against a lexer that reads
    one character at a time, and the trailing-comma substitution, which does reach into literals. */
module JsoncLaws {
  import opened Jsonc

  // A lexer without look-ahead loops.

  datatype Mode = Code | Str | Escaped | Line | Block

  /** The characters outside comments, decided one step at a time. */
  function Lex(s: string, mode: Mode): string
    decreases |s|
  {
    if s == "" then ""
    else
      match mode
      case Code =>
        if s[0] == '"' then [s[0]] + Lex(s[1..], Str)
        else if |s| > 1 && s[0] == '/' && s[1] == '/' then Lex(s[2..], Line)
        else if |s| > 1 && s[0] == '/' && s[1] == '*' then Lex(s[2..], Block)
        else [s[0]] + Lex(s[1..], Code)
      case Str =>
        [s[0]] + Lex(s[1..], if s[0] == '"' then Code else if s[0] == '\\' then Escaped else Str)
      case Escaped => [s[0]] + Lex(s[1..], Str)
      case Line => if s[0] == '\n' then [s[0]] + Lex(s[1..], Code) else Lex(s[1..], Line)
      case Block => if |s| > 1 && s[0] == '*' && s[1] == '/' then Lex(s[2..], Code) else Lex(s[1..], Block)
  }

  lemma {:induction false} LexLiteral(s: string)
    ensures Lex(s, Str) == s[..LiteralRest(s)] + Lex(s[LiteralRest(s)..], Code)
    decreases |s|
  {
    if s == "" {
    } else if s[0] == '"' {
    } else if s[0] == '\\' {
      if |s| > 1 {
        LexLiteral(s[2..]);
        assert Lex(s[1..], Escaped) == [s[1]] + Lex(s[2..], Str) by { assert s[1..][1..] == s[2..]; }
        assert s[2..][LiteralRest(s[2..])..] == s[LiteralRest(s)..];
      }
    } else {
      LexLiteral(s[1..]);
      assert s[1..][LiteralRest(s[1..])..] == s[LiteralRest(s)..];
    }
  }

  lemma {:induction false} LexLine(s: string)
    ensures var newline := Find(s, "\n");
            Lex(s, Line) == if newline < 0 then "" else Lex(s[newline..], Code)
    decreases |s|
  {
    if s != "" && s[0] == '\n' {
      assert s[..1] == "\n";
      assert s[0..] == s;
    } else if s != "" {
      assert s[..1] != "\n" by { assert s[..1][0] == s[0]; }
      LexLine(s[1..]);
      var newline := Find(s[1..], "\n");
      if newline >= 0 { assert s[1..][newline..] == s[newline + 1..]; }
    }
  }

  lemma {:induction false} LexBlock(s: string)
    ensures var close := Find(s, "*/");
            Lex(s, Block) == if close < 0 then "" else Lex(s[close + 2..], Code)
    decreases |s|
  {
    if |s| < 2 {
      if s != "" { assert s[1..] == ""; }
    } else if s[0] == '*' && s[1] == '/' {
      assert s[..2] == "*/";
    } else {
      assert s[..2] != "*/" by { assert s[..2][0] == s[0] && s[..2][1] == s[1]; }
      LexBlock(s[1..]);
      var close := Find(s[1..], "*/");
      if close >= 0 { assert s[1..][close + 2..] == s[close + 3..]; }
    }
  }

  /** The newline search from the opener itself is the search from behind it. */
  lemma FindPastOpener(s: string)
    requires OpensLine(s)
    ensures Find(s, "\n") == var r := Find(s[2..], "\n"); if r < 0 then -1 else r + 2
  {
    assert s[..1] != "\n" by { assert s[..1][0] == '/'; }
    assert s[1..][..1] != "\n" by { assert s[1..][..1][0] == '/'; }
    assert s[1..][1..] == s[2..];
  }

  lemma SplitBehindFirst(s: string, n: nat)
    requires n < |s|
    ensures s[..n + 1] == [s[0]] + s[1..][..n] && s[1..][n..] == s[n + 1..]
  {
  }

  lemma TwoParts(c: char, a: string, b: string)
    ensures [c] + (a + b) == [c] + a + b
  {
  }

  lemma LexLiteralToken(s: string)
    requires s != "" && s[0] == '"'
    ensures Lex(s, Code) == Emit(Head(s)) + Lex(s[TokenLength(s)..], Code)
  {
    var body, n := s[1..], LiteralRest(s[1..]);
    LexLiteral(body);
    HeadIsLiteral(s);
    SplitBehindFirst(s, n);
    TwoParts(s[0], body[..n], Lex(s[n + 1..], Code));
  }

  lemma LexLineToken(s: string)
    requires OpensLine(s)
    ensures Lex(s, Code) == Lex(s[TokenLength(s)..], Code)
  {
    FindPastOpener(s);
    LexLine(s[2..]);
    var newline := Find(s[2..], "\n");
    if newline >= 0 {
      assert s[2..][newline..] == s[newline + 2..];
    } else {
      assert s[TokenLength(s)..] == "";
    }
  }

  lemma LexBlockToken(s: string)
    requires OpensBlock(s)
    ensures Lex(s, Code) == Lex(s[TokenLength(s)..], Code)
  {
    LexBlock(s[2..]);
    var close := Find(s[2..], "*/");
    if close >= 0 {
      assert s[2..][close + 2..] == s[close + 4..];
    } else {
      assert s[TokenLength(s)..] == "";
    }
  }

  /** The index-hopping scan is the character-by-character lexer. */
  lemma {:induction false} ScanIsLexer(s: string)
    ensures Scan(s) == Lex(s, Code)
    decreases |s|
  {
    if s != "" {
      ScanIsLexer(s[TokenLength(s)..]);
      if s[0] == '"' {
        LexLiteralToken(s);
      } else if OpensLine(s) {
        LexLineToken(s);
      } else if OpensBlock(s) {
        LexBlockToken(s);
      }
    }
  }

  /** What is left of `b` when some of its characters are taken out. */
  ghost predicate Subsequence(a: string, b: string) {
    a == "" || (b != "" && ((a[0] == b[0] && Subsequence(a[1..], b[1..])) || Subsequence(a, b[1..])))
  }

  lemma {:induction false} LexOnlyTakesOut(s: string, mode: Mode)
    ensures Subsequence(Lex(s, mode), s)
    decreases |s|
  {
    if s != "" {
      var out := Lex(s, mode);
      if mode.Block? && |s| > 1 && s[0] == '*' && s[1] == '/' {
        LexOnlyTakesOut(s[2..], Code);
        TwoTakenOut(Lex(s[2..], Code), s);
      } else if mode.Block? {
        LexOnlyTakesOut(s[1..], Block);
      } else if mode.Line? && s[0] != '\n' {
        LexOnlyTakesOut(s[1..], Line);
      } else if mode.Code? && s[0] != '"' && OpensLine(s) {
        LexOnlyTakesOut(s[2..], Line);
        TwoTakenOut(Lex(s[2..], Line), s);
      } else if mode.Code? && s[0] != '"' && OpensBlock(s) {
        LexOnlyTakesOut(s[2..], Block);
        TwoTakenOut(Lex(s[2..], Block), s);
      } else {
        var next :| out == [s[0]] + Lex(s[1..], next);
        LexOnlyTakesOut(s[1..], next);
        assert out[1..] == Lex(s[1..], next);
      }
    }
  }

  lemma TwoTakenOut(a: string, b: string)
    requires |b| > 1 && Subsequence(a, b[2..])
    ensures Subsequence(a, b)
  {
    assert b[1..][1..] == b[2..];
  }

  /** The scan only takes characters out. */
  lemma ScanOnlyTakesOut(s: string)
    ensures Subsequence(Scan(s), s)
  {
    ScanIsLexer(s);
    LexOnlyTakesOut(s, Code);
  }

  // The trailing-comma substitution.

  /** `\s` */
  predicate IsSpace(c: char) {
    || '\t' <= c <= '\r' || '\U{001C}' <= c <= ' ' || c == '\U{0085}' || c == '\U{00A0}'
    || c == '\U{1680}' || '\U{2000}' <= c <= '\U{200A}' || c == '\U{2028}' || c == '\U{2029}'
    || c == '\U{202F}' || c == '\U{205F}' || c == '\U{3000}'
  }

  /** `\s*[}\]]` matches at the start. */
  predicate ClosesAfterSpace(s: string) {
    s != "" && (s[0] == '}' || s[0] == ']' || (IsSpace(s[0]) && ClosesAfterSpace(s[1..])))
  }

  predicate TrailingComma(s: string) {
    s != "" && s[0] == ',' && ClosesAfterSpace(s[1..])
  }

  /** `re.sub(r",(\s*[}\]])", r"\1", s)`: a match keeps all but its comma, and nothing it keeps
      can start another match. */
  function DropCommas(s: string): string {
    if s == "" then ""
    else if TrailingComma(s) then DropCommas(s[1..])
    else [s[0]] + DropCommas(s[1..])
  }

  function StripJsonc(text: string): string { DropCommas(Scan(text)) }

  /** A closing bracket or brace, with nothing but white space up to it. */
  ghost predicate ClosesAt(s: string, n: nat) {
    n < |s| && (s[n] == '}' || s[n] == ']') && forall i | 0 <= i < n :: IsSpace(s[i])
  }

  ghost predicate Closes(s: string) { exists n: nat :: ClosesAt(s, n) }

  lemma {:induction false} ClosesIff(s: string)
    ensures ClosesAfterSpace(s) <==> Closes(s)
  {
    if s != "" {
      ClosesIff(s[1..]);
      if s[0] == '}' || s[0] == ']' { assert ClosesAt(s, 0); }
      if n: nat :| ClosesAt(s[1..], n) {
        if IsSpace(s[0]) { assert ClosesAt(s, n + 1); }
      }
      if n: nat :| ClosesAt(s, n) {
        if n > 0 { assert ClosesAt(s[1..], n - 1); }
      }
    }
  }

  /** The character at `i` is a comma before a closing bracket or brace. */
  ghost predicate IsTrailing(s: string, i: nat) {
    i < |s| && s[i] == ',' && Closes(s[i + 1..])
  }

  /** What is left of the text from `i` on without its trailing commas. */
  ghost function WithoutTrailing(s: string, i: nat): string
    requires i <= |s|
    decreases |s| - i
  {
    if i == |s| then "" else (if IsTrailing(s, i) then "" else [s[i]]) + WithoutTrailing(s, i + 1)
  }

  lemma {:induction false} DroppedFrom(s: string, i: nat)
    requires i <= |s|
    ensures DropCommas(s[i..]) == WithoutTrailing(s, i)
    decreases |s| - i
  {
    if i < |s| {
      assert s[i..][1..] == s[i + 1..] && s[i..][0] == s[i];
      ClosesIff(s[i + 1..]);
      DroppedFrom(s, i + 1);
      assert TrailingComma(s[i..]) <==> IsTrailing(s, i);
    }
  }

  /** The substitution takes out the commas before a closing bracket or brace, and nothing else. */
  lemma OnlyTrailingCommasDrop(s: string)
    ensures DropCommas(s) == WithoutTrailing(s, 0)
  {
    DroppedFrom(s, 0);
    assert s[0..] == s;
  }

  /** The substitution finds something in the text. */
  predicate HasTrailingComma(s: string) {
    s != "" && (TrailingComma(s) || HasTrailingComma(s[1..]))
  }

  lemma {:induction false} DropCommasShrinks(s: string)
    ensures |DropCommas(s)| <= |s|
    ensures DropCommas(s) == s <==> !HasTrailingComma(s)
    ensures HasTrailingComma(s) ==> |DropCommas(s)| < |s|
  {
    if s != "" {
      DropCommasShrinks(s[1..]);
      if !TrailingComma(s) && DropCommas(s) == s {
        assert DropCommas(s)[1..] == s[1..];
      }
    }
  }

  /** What follows a quote is no part of a match before it. */
  lemma {:induction false} ClosesBeforeQuote(a: string, x: string)
    requires a != "" && a[|a| - 1] == '"'
    ensures ClosesAfterSpace(a + x) == ClosesAfterSpace(a)
  {
    if |a| > 1 {
      ClosesBeforeQuote(a[1..], x);
      assert (a + x)[1..] == a[1..] + x;
    }
  }

  lemma {:induction false} DropCommasSplits(a: string, x: string)
    requires a != "" && a[|a| - 1] == '"'
    ensures DropCommas(a + x) == DropCommas(a) + DropCommas(x)
  {
    assert (a + x)[1..] == a[1..] + x;
    if |a| > 1 {
      ClosesBeforeQuote(a[1..], x);
      DropCommasSplits(a[1..], x);
    } else {
      assert a[1..] == "";
      assert (a + x)[1..] == x;
    }
  }

  /** Commas dropped inside a literal leave it a literal: an escape that loses its comma takes the
      space or bracket behind it instead, and those are never a quote or a backslash. */
  lemma {:induction false} LiteralStaysLiteral(s: string)
    requires LiteralRest(s) == |s|
    ensures LiteralRest(DropCommas(s)) == |DropCommas(s)|
    ensures Closed(DropCommas(s)) == Closed(s)
    decreases |s|
  {
    var d := DropCommas(s);
    if s == "" {
    } else if s[0] == '"' {
      assert s[1..] == "";
    } else if s[0] == '\\' {
      if |s| > 1 {
        assert d == [s[0]] + DropCommas(s[1..]);
        if TrailingComma(s[1..]) {
          var t := s[2..];
          assert s[1..][1..] == t;
          assert DropCommas(t) == [t[0]] + DropCommas(t[1..]);
          LiteralStaysLiteral(t[1..]);
          assert d[2..] == DropCommas(t[1..]);
        } else {
          assert s[1..][1..] == s[2..];
          LiteralStaysLiteral(s[2..]);
          assert d[2..] == DropCommas(s[2..]);
        }
      } else {
        assert s[1..] == "";
      }
    } else {
      LiteralStaysLiteral(s[1..]);
      if !TrailingComma(s) { assert d[1..] == DropCommas(s[1..]); }
    }
  }

  function DropEach(ls: seq<string>): (r: seq<string>)
    ensures |r| == |ls| && forall i | 0 <= i < |ls| :: r[i] == DropCommas(ls[i])
  {
    seq(|ls|, i requires 0 <= i < |ls| => DropCommas(ls[i]))
  }

  /** The whole text has no comment left in it. */
  ghost predicate CommentFree(s: string) {
    forall t | t in Tokens(s) :: !t.Comment?
  }

  lemma CommentFreeRest(s: string)
    requires CommentFree(s) && s != ""
    ensures CommentFree(s[TokenLength(s)..]) && !Head(s).Comment?
  {
    assert Head(s) == Tokens(s)[0];
    assert Tokens(s[TokenLength(s)..]) == Tokens(s)[1..];
  }

  /** What the substitution leaves first is what was first, or the space or bracket behind a comma. */
  lemma FirstAfterDrop(s: string)
    requires s != ""
    ensures DropCommas(s) != ""
    ensures DropCommas(s)[0] == if TrailingComma(s) then s[1] else s[0]
  {
    if TrailingComma(s) {
      assert s[1..][0] == s[1];
    }
  }

  /** The text `d` starts with the literal `lit`, and `rest` follows it. */
  ghost predicate Starts(d: string, t: Token, rest: string) {
    d != "" && Head(d) == t && d[TokenLength(d)..] == rest
  }

  lemma QuotedStarts(body: string, rest: string)
    requires LiteralRest(body) == |body| && (Closed(body) || rest == "")
    ensures Starts("\"" + body + rest, Literal("\"" + body), rest)
  {
    QuotedPrefix(body, rest);
    QuotedLength(body, rest);
    HeadIsLiteral("\"" + body + rest);
  }

  lemma QuotedLength(body: string, rest: string)
    requires LiteralRest(body) == |body| && (Closed(body) || rest == "")
    ensures LiteralRest(body + rest) == |body|
  {
    if Closed(body) {
      ClosedIgnoresSuffix(body, rest);
      assert body[..|body|] + rest == body + rest;
    } else {
      assert body + rest == body;
    }
  }

  lemma HeadIsLiteral(s: string)
    requires s != "" && s[0] == '"'
    ensures TokenLength(s) == 1 + LiteralRest(s[1..]) && Head(s) == Literal(s[..1 + LiteralRest(s[1..])])
  {
  }

  lemma QuotedPrefix(body: string, rest: string)
    ensures var d := "\"" + body + rest;
            d[0] == '"' && d[1..] == body + rest && d[..1 + |body|] == "\"" + body && d[1 + |body|..] == rest
  {
  }

  lemma DropQuoted(body: string, rest: string)
    requires LiteralRest(body) == |body| && (Closed(body) || rest == "")
    ensures DropCommas("\"" + body + rest) == "\"" + DropCommas(body) + DropCommas(rest)
    ensures DropCommas("\"" + body) == "\"" + DropCommas(body)
  {
    var lit := "\"" + body;
    assert lit[1..] == body;
    if Closed(body) {
      ClosedEndsInQuote(body);
      assert lit[|lit| - 1] == '"';
      DropCommasSplits(lit, rest);
    } else {
      assert lit + rest == lit;
    }
  }

  lemma LiteralParts(s: string)
    requires s != "" && s[0] == '"'
    ensures var n := TokenLength(s);
            && s[..n] == "\"" + s[1..n] && s == "\"" + s[1..n] + s[n..]
            && LiteralRest(s[1..n]) == |s[1..n]| && (Closed(s[1..n]) || s[n..] == "")
  {
    var n := TokenLength(s);
    LiteralBody(s[1..]);
    assert s[1..][..n - 1] == s[1..n];
    if !Closed(s[1..]) { UnclosedRunsOut(s[1..]); }
  }

  lemma DropLiteralToken(s: string)
    requires s != "" && s[0] == '"'
    ensures var n := TokenLength(s);
            Starts(DropCommas(s), Literal(DropCommas(s[..n])), DropCommas(s[n..]))
  {
    var n := TokenLength(s);
    var body, rest := s[1..n], s[n..];
    LiteralParts(s);
    LiteralStaysLiteral(body);
    DropQuoted(body, rest);
    QuotedStarts(DropCommas(body), DropCommas(rest));
  }

  lemma {:induction false} LiteralBody(s: string)
    ensures var body := s[..LiteralRest(s)];
            LiteralRest(body) == |body| && Closed(body) == Closed(s)
  {
    if Closed(s) {
      ClosedIgnoresSuffix(s, "");
      assert s[..LiteralRest(s)] + "" == s[..LiteralRest(s)];
    } else {
      UnclosedRunsOut(s);
      assert s[..|s|] == s;
    }
  }

  lemma {:induction false} ClosedEndsInQuote(s: string)
    requires Closed(s) && LiteralRest(s) == |s|
    ensures s[|s| - 1] == '"'
  {
    if s[0] == '"' {
    } else if s[0] == '\\' {
      ClosedEndsInQuote(s[2..]);
    } else {
      ClosedEndsInQuote(s[1..]);
    }
  }

  lemma DropPlainToken(s: string)
    requires s != "" && Head(s).Plain? && !TrailingComma(s)
    ensures Starts(DropCommas(s), Head(s), DropCommas(s[1..]))
  {
    var d := DropCommas(s);
    assert d == [s[0]] + DropCommas(s[1..]);
    if s[0] == '/' && s[1..] != "" {
      FirstAfterDrop(s[1..]);
      assert d[1] == DropCommas(s[1..])[0];
      assert TrailingComma(s[1..]) ==> s[1..][1] == s[2] && ClosesAfterSpace(s[1..][1..]);
    }
  }

  lemma StartsTokens(d: string, t: Token, rest: string)
    requires Starts(d, t, rest)
    ensures Literals(Tokens(d)) == (if t.Literal? then [t.text] else []) + Literals(Tokens(rest))
  {
    assert Tokens(d)[0] == t && Tokens(d)[1..] == Tokens(rest);
  }

  /** On a text without comments the substitution acts literal by literal. */
  lemma {:induction false} LiteralsAfterDrop(s: string)
    requires CommentFree(s)
    ensures Literals(Tokens(DropCommas(s))) == DropEach(Literals(Tokens(s)))
    decreases |s|
  {
    if s != "" {
      var rest := s[TokenLength(s)..];
      CommentFreeRest(s);
      LiteralsAfterDrop(rest);
      StartsTokens(s, Head(s), rest);
      if s[0] == '"' {
        DropLiteralToken(s);
        StartsTokens(DropCommas(s), Literal(DropCommas(s[..TokenLength(s)])), DropCommas(rest));
      } else if !TrailingComma(s) {
        DropPlainToken(s);
        StartsTokens(DropCommas(s), Head(s), DropCommas(rest));
      }
    }
  }

  lemma DropEachIff(ls: seq<string>)
    ensures DropEach(ls) == ls <==> forall l | l in ls :: !HasTrailingComma(l)
  {
    forall i | 0 <= i < |ls| ensures DropEach(ls)[i] == ls[i] <==> !HasTrailingComma(ls[i]) {
      DropCommasShrinks(ls[i]);
    }
    if forall l | l in ls :: !HasTrailingComma(l) {
      assert forall i | 0 <= i < |ls| :: DropEach(ls)[i] == ls[i];
    }
  }

  /** "String literals are respected" holds of the whole function exactly when no literal itself
      contains a comma before a closing bracket; comments and commas around literals never matter. */
  lemma LiteralsRespectedIff(text: string)
    ensures Literals(Tokens(StripJsonc(text))) == Literals(Tokens(text)) <==>
            forall l | l in Literals(Tokens(text)) :: !HasTrailingComma(l)
  {
    ScanIsIdempotent(text);
    LiteralsAfterDrop(Scan(text));
    DropEachIff(Literals(Tokens(text)));
  }

  /** A literal that is not respected: the value `",]"` loses its comma. */
  lemma CommaInLiteralIsDropped()
    ensures Literals(Tokens("\",]\"")) == ["\",]\""]
    ensures Literals(Tokens(StripJsonc("\",]\""))) != Literals(Tokens("\",]\""))
  {
    var s := "\",]\"";
    assert s[1..] == ",]\"" && s[1..][1..] == "]\"" && s[1..][1..][1..] == "\"";
    assert LiteralRest("\"") == 1 && LiteralRest("]\"") == 2 && LiteralRest(s[1..]) == 3 by {
      assert "]\""[1..] == "\"";
    }
    assert s[..4] == s && s[4..] == "";
    assert Tokens(s) == [Literal(s)];
    assert Literals([Literal(s)][1..]) == [];
    assert HasTrailingComma(s[1..]);
    assert HasTrailingComma(s) && s in Literals(Tokens(s));
    LiteralsRespectedIff(s);
  }
}
