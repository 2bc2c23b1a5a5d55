/** Comment and trailing-comma removal from JSONC (`gates/typescript.py`, `strip_jsonc`). */
module Jsonc {

  /** `s.find(pat)`: the first occurrence, or -1. */
  function Find(s: string, pat: string): (r: int)
    requires pat != ""
    ensures -1 <= r && (r >= 0 ==> r + |pat| <= |s| && s[r..r + |pat|] == pat)
  {
    if |s| < |pat| then -1
    else if s[..|pat|] == pat then 0
    else
      var r := Find(s[1..], pat);
      if r < 0 then -1 else r + 1
  }

  // Tokens: what the scan sees at an index.

  datatype Token = Literal(text: string) | Comment(text: string) | Plain(c: char)

  /** Characters of a string literal after its opening quote; an unterminated one runs to the end. */
  function LiteralRest(s: string): (n: nat)
    ensures n <= |s|
  {
    if s == "" then 0
    else if s[0] == '"' then 1
    else if s[0] == '\\' then (if |s| == 1 then 1 else 2 + LiteralRest(s[2..]))
    else 1 + LiteralRest(s[1..])
  }

  predicate Closed(s: string) {
    s != "" && (s[0] == '"' || (if s[0] == '\\' then |s| > 1 && Closed(s[2..]) else Closed(s[1..])))
  }

  predicate OpensLine(s: string) { |s| > 1 && s[0] == '/' && s[1] == '/' }

  predicate OpensBlock(s: string) { |s| > 1 && s[0] == '/' && s[1] == '*' }

  function CommentLength(s: string): (n: nat)
    requires OpensLine(s) || OpensBlock(s)
    ensures 2 <= n <= |s|
  {
    if OpensLine(s) then
      assert s[..1] != "\n" && s[1..][..1] != "\n";
      var newline := Find(s, "\n");
      if newline < 0 then |s| else assert s[newline] == '\n'; newline
    else
      var close := Find(s[2..], "*/");
      if close < 0 then |s| else 2 + close + 2
  }

  /** The length of the token at the start of the text. */
  function TokenLength(s: string): (n: nat)
    requires s != ""
    ensures 1 <= n <= |s|
  {
    if s[0] == '"' then 1 + LiteralRest(s[1..])
    else if OpensLine(s) || OpensBlock(s) then CommentLength(s)
    else 1
  }

  function Head(s: string): Token
    requires s != ""
  {
    if s[0] == '"' then Literal(s[..TokenLength(s)])
    else if OpensLine(s) || OpensBlock(s) then Comment(s[..TokenLength(s)])
    else Plain(s[0])
  }

  function Tokens(s: string): seq<Token>
    decreases |s|
  {
    if s == "" then [] else [Head(s)] + Tokens(s[TokenLength(s)..])
  }

  /** What the scan appends for one token: everything but comments. */
  function Emit(t: Token): string {
    match t
    case Literal(text) => text
    case Comment(_) => ""
    case Plain(c) => [c]
  }

  /** The scan: comments dropped, the rest verbatim. */
  function Scan(s: string): string
    decreases |s|
  {
    if s == "" then "" else Emit(Head(s)) + Scan(s[TokenLength(s)..])
  }

  /** The inner loop: where the literal opened at `index` ends. */
  method LiteralEnd(text: string, index: nat) returns (stop: nat)
    requires index < |text| && text[index] == '"'
    ensures stop == index + TokenLength(text[index..])
  {
    var end := index + 1;
    ghost var body := LiteralRest(text[index + 1..]);
    while end < |text| && text[end] != '"'
      invariant index < end <= |text| + 1
      invariant index + 1 + body == if end <= |text| then end + LiteralRest(text[end..]) else |text|
    {
      assert text[end..][1..] == text[end + 1..];
      assert |text[end..]| > 1 ==> text[end..][2..] == text[end + 2..];
      end := end + if text[end] == '\\' then 2 else 1;
    }
    stop := if end + 1 < |text| then end + 1 else |text|;
    assert text[index..][1..] == text[index + 1..];
  }

  lemma ScanSplits(text: string, index: nat, out: string)
    requires index < |text|
    ensures var rest := text[index..];
            out + Scan(rest) == out + Emit(Head(rest)) + Scan(text[index + TokenLength(rest)..])
  {
    var rest := text[index..];
    assert text[index + TokenLength(rest)..] == rest[TokenLength(rest)..];
  }

  predicate StartsAt(text: string, index: nat, c: char, d: char) {
    index + 1 < |text| && text[index] == c && text[index + 1] == d
  }

  /** The loop body: what is appended at `index`, and where the scan goes on. */
  method ScanStep(text: string, index: nat) returns (kept: string, next: nat)
    requires index < |text|
    ensures kept == Emit(Head(text[index..])) && next == index + TokenLength(text[index..])
  {
    ghost var rest := text[index..];
    assert OpensLine(rest) <==> StartsAt(text, index, '/', '/');
    assert OpensBlock(rest) <==> StartsAt(text, index, '/', '*');
    if text[index] == '"' {
      next := LiteralEnd(text, index);
      kept := text[index..next];
    } else if StartsAt(text, index, '/', '/') {
      var newline := Find(text[index..], "\n");
      kept, next := "", if newline < 0 then |text| else index + newline;
    } else if StartsAt(text, index, '/', '*') {
      assert rest[2..] == text[index + 2..];
      var close := Find(text[index + 2..], "*/");
      kept, next := "", if close < 0 then |text| else index + 2 + close + 2;
    } else {
      kept, next := [text[index]], index + 1;
    }
  }

  /** The index-driven loop of `strip_jsonc`. */
  method RemoveComments(text: string) returns (out: string)
    ensures out == Scan(text)
  {
    out := "";
    var index := 0;
    while index < |text|
      invariant 0 <= index <= |text|
      invariant out + Scan(text[index..]) == Scan(text)
    {
      ScanSplits(text, index, out);
      var kept, next := ScanStep(text, index);
      out := out + kept;
      index := next;
    }
  }

  // Scanning again changes nothing.

  function Kept(ts: seq<Token>): seq<Token> {
    if ts == [] then []
    else (if ts[0].Comment? then [] else [ts[0]]) + Kept(ts[1..])
  }

  function Literals(ts: seq<Token>): seq<string> {
    if ts == [] then []
    else (if ts[0].Literal? then [ts[0].text] else []) + Literals(ts[1..])
  }

  lemma {:induction false} UnclosedRunsOut(s: string)
    requires !Closed(s)
    ensures LiteralRest(s) == |s|
  {
    if s == "" {
    } else if s[0] == '\\' {
      if |s| > 1 { UnclosedRunsOut(s[2..]); }
    } else {
      UnclosedRunsOut(s[1..]);
    }
  }

  /** A closed literal ends where it ends, whatever follows. */
  lemma {:induction false} ClosedIgnoresSuffix(s: string, x: string)
    requires Closed(s)
    ensures var body := s[..LiteralRest(s)];
            Closed(body + x) && LiteralRest(body + x) == |body|
  {
    var n := LiteralRest(s);
    var t := s[..n] + x;
    if s[0] == '"' {
    } else if s[0] == '\\' {
      ClosedIgnoresSuffix(s[2..], x);
      assert t[2..] == s[2..][..n - 2] + x;
    } else {
      ClosedIgnoresSuffix(s[1..], x);
      assert t[1..] == s[1..][..n - 1] + x;
    }
  }

  /** Deleting comments opens none: a kept slash is not followed by a slash or a star. */
  lemma HeadSurvives(s: string)
    requires s != "" && !Head(s).Comment?
    ensures var t := Emit(Head(s)) + Scan(s[TokenLength(s)..]);
            t != "" && Head(t) == Head(s) && TokenLength(t) == TokenLength(s)
  {
    var n := TokenLength(s);
    var rest := s[n..];
    var t := Emit(Head(s)) + Scan(rest);
    if s[0] == '"' {
      var body := s[1..];
      if Closed(body) {
        ClosedIgnoresSuffix(body, Scan(rest));
        assert t[1..] == body[..LiteralRest(body)] + Scan(rest);
      } else {
        UnclosedRunsOut(body);
        assert rest == "" && t == s;
      }
      assert t[..n] == s[..n];
    } else if s[0] == '/' && rest != "" {
      assert rest[0] == s[1];
      assert Emit(Head(rest))[0] == rest[0];
      assert t[1] == rest[0];
    }
  }

  /** The tokens of the output are the tokens of the input without its comments: every literal
      survives verbatim and in order, and no comment is left or made. */
  lemma {:induction false} ScanKeepsTokens(s: string)
    ensures Tokens(Scan(s)) == Kept(Tokens(s))
    decreases |s|
  {
    if s != "" {
      var rest := s[TokenLength(s)..];
      ScanKeepsTokens(rest);
      assert Tokens(s)[1..] == Tokens(rest);
      if !Head(s).Comment? {
        HeadSurvives(s);
        var t := Scan(s);
        assert t[TokenLength(t)..] == Scan(rest);
        assert Tokens(t) == [Head(t)] + Tokens(Scan(rest));
      } else {
        assert Scan(s) == Scan(rest);
        assert Kept(Tokens(s)) == Kept(Tokens(rest));
      }
    }
  }

  lemma TokenIsEmitted(s: string)
    requires s != "" && !Head(s).Comment?
    ensures Emit(Head(s)) + s[TokenLength(s)..] == s
  {
    assert s == s[..TokenLength(s)] + s[TokenLength(s)..];
  }

  lemma {:induction false} ScanOfKept(s: string)
    requires Kept(Tokens(s)) == Tokens(s)
    ensures Scan(s) == s
    decreases |s|
  {
    if s != "" {
      var rest := s[TokenLength(s)..];
      KeptTail(Tokens(s));
      assert Tokens(s)[1..] == Tokens(rest);
      ScanOfKept(rest);
      TokenIsEmitted(s);
    }
  }

  lemma {:induction false} KeptShrinks(ts: seq<Token>)
    ensures |Kept(ts)| <= |ts|
  {
    if ts != [] { KeptShrinks(ts[1..]); }
  }

  lemma KeptTail(ts: seq<Token>)
    requires Kept(ts) == ts && ts != []
    ensures !ts[0].Comment? && Kept(ts[1..]) == ts[1..]
  {
    KeptShrinks(ts[1..]);
  }

  lemma {:induction false} KeptTwice(ts: seq<Token>)
    ensures Kept(Kept(ts)) == Kept(ts)
    ensures forall t | t in Kept(ts) :: !t.Comment?
    ensures Literals(Kept(ts)) == Literals(ts)
  {
    if ts != [] {
      KeptTwice(ts[1..]);
      if ts[0].Comment? {
        assert Kept(ts) == Kept(ts[1..]) && Literals(ts) == Literals(ts[1..]);
      } else {
        assert Kept(ts)[1..] == Kept(ts[1..]);
      }
    }
  }

  lemma ScanIsIdempotent(s: string)
    ensures Scan(Scan(s)) == Scan(s)
    ensures Literals(Tokens(Scan(s))) == Literals(Tokens(s))
    ensures forall t | t in Tokens(Scan(s)) :: !t.Comment?
  {
    ScanKeepsTokens(s);
    KeptTwice(Tokens(s));
    ScanOfKept(Scan(s));
  }
}
