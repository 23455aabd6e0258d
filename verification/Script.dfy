/** The script tokenizer of mptest and the skipping of `--end` blocks and false `--if`
    branches.

    Bytes are written as characters. */
module Script {
  import opened Common

  predicate IsSpace(c: char) {
    c in {' ', '\t', '\n', '\U{b}', '\U{c}', '\r'}
  }

  /** The blanks are the space and the five control characters from tab to return. */
  lemma SpacesAre(c: char)
    ensures IsSpace(c) <==> c == ' ' || 9 <= c as int <= 13
  {
  }

  // ---------- token lengths ----------

  predicate OpensComment(z: string) {
    |z| > 1 && z[0] == '/' && z[1] == '*'
  }

  predicate ClosesComment(z: string) {
    |z| > 1 && z[0] == '*' && z[1] == '/'
  }

  /** Blanks and comments up to the first character that is neither. */
  function BlankLen(z: string, inComment: bool): (n: nat)
    ensures n <= |z|
  {
    if z == [] then 0
    else if IsSpace(z[0]) then 1 + BlankLen(z[1..], inComment)
    else if inComment && ClosesComment(z) then 2 + BlankLen(z[2..], false)
    else if !inComment && OpensComment(z) then 2 + BlankLen(z[2..], true)
    else if inComment then 1 + BlankLen(z[1..], true)
    else 0
  }

  /** The rest of the line, with its newline. */
  function LineLen(z: string): (n: nat)
    ensures n <= |z|
    ensures forall i :: 0 <= i < n - 1 ==> z[i] != '\n'
    ensures n < |z| ==> n > 0 && z[n - 1] == '\n'
  {
    if z == [] then 0 else if z[0] == '\n' then 1 else 1 + LineLen(z[1..])
  }

  /** What follows an opening quote, up to a closing one. Whether a quote closes depends on
      the second character after it, as in the original. */
  function QuotedLen(z: string, delim: char): (n: nat)
    ensures n <= |z|
  {
    if z == [] then 0
    else if z[0] != delim then 1 + QuotedLen(z[1..], delim)
    else if |z| > 2 && z[2] == delim then 2 + QuotedLen(z[2..], delim)
    else 1
  }

  /** A text without its quote in it, and no such quote second behind the closing one, is
      closed there. */
  lemma {:induction false} QuotedIs(body: string, rest: string, delim: char)
    requires delim !in body && (|rest| > 1 ==> rest[1] != delim)
    ensures QuotedLen(body + ([delim] + rest), delim) == |body| + 1
  {
    var z := body + ([delim] + rest);
    if body == "" {
      assert z == [delim] + rest;
    } else {
      assert z[1..] == body[1..] + ([delim] + rest);
      QuotedIs(body[1..], rest, delim);
    }
  }

  predicate EndsWord(c: char) {
    IsSpace(c) || c == '"' || c == '\'' || c == ';'
  }

  function WordLen(z: string): (n: nat)
    ensures n <= |z|
  {
    if z == [] || EndsWord(z[0]) then 0 else 1 + WordLen(z[1..])
  }

  predicate IsCommand(z: string) {
    |z| > 1 && z[0] == '-' && z[1] == '-'
  }

  function TokenLen(z: string): (n: nat)
    ensures z != [] ==> 1 <= n <= |z|
    ensures z == [] ==> n == 1
  {
    if z == [] then 1
    else if IsSpace(z[0]) then BlankLen(z, false)
    else if OpensComment(z) then 2 + BlankLen(z[2..], true)
    else if IsCommand(z) then 2 + LineLen(z[2..])
    else if z[0] == '"' || z[0] == '\'' then 1 + QuotedLen(z[1..], z[0])
    else 1 + WordLen(z[1..])
  }

  // ---------- the line counter ----------

  function Newlines(z: string): nat {
    if z == [] then 0 else (if z[0] == '\n' then 1 else 0) + Newlines(z[1..])
  }

  predicate IsQuoted(z: string) {
    z != [] && (z[0] == '"' || z[0] == '\'')
  }

  /** The newlines the original counts after an opening quote: it does not look at a
      character that it steps over together with the quote before it. */
  function QuotedLines(z: string, delim: char): nat {
    if z == [] then 0
    else if z[0] != delim then (if z[0] == '\n' then 1 else 0) + QuotedLines(z[1..], delim)
    else if |z| > 2 && z[2] == delim then QuotedLines(z[2..], delim)
    else 0
  }

  /** By how much a token moves the line counter on. */
  function TokenLines(z: string): nat {
    if z == [] then 0
    else if IsQuoted(z) then QuotedLines(z[1..], z[0])
    else Newlines(z[..TokenLen(z)])
  }

  /** A newline stands between two quotes where the second keeps the text from being
      closed. */
  predicate Hides(z: string, delim: char) {
    if z == [] then false
    else if z[0] != delim then Hides(z[1..], delim)
    else |z| > 2 && z[2] == delim && (z[1] == '\n' || Hides(z[2..], delim))
  }

  lemma {:induction false} NewlinesAppend(a: string, b: string)
    ensures Newlines(a + b) == Newlines(a) + Newlines(b)
  {
    if a == [] {
      assert a + b == b;
    } else {
      assert (a + b)[1..] == a[1..] + b;
      NewlinesAppend(a[1..], b);
    }
  }

  lemma NewlinesNext(z: string, n: nat)
    requires n < |z|
    ensures Newlines(z[..n + 1]) == Newlines(z[..n]) + if z[n] == '\n' then 1 else 0
  {
    NewlinesAppend(z[..n], [z[n]]);
    assert z[..n + 1] == z[..n] + [z[n]];
    assert [z[n]][1..] == [];
  }

  lemma {:induction false} QuotedLinesIff(z: string, delim: char)
    requires delim != '\n'
    ensures var all := Newlines(z[..QuotedLen(z, delim)]);
            QuotedLines(z, delim) <= all && (QuotedLines(z, delim) == all <==> !Hides(z, delim))
  {
    if z != [] {
      var n := QuotedLen(z, delim);
      assert z[..n][1..] == z[1..n];
      if z[0] != delim {
        QuotedLinesIff(z[1..], delim);
        assert z[1..][..n - 1] == z[1..n];
      } else if |z| > 2 && z[2] == delim {
        QuotedLinesIff(z[2..], delim);
        assert z[2..][..n - 2] == z[2..n];
        assert z[1..n][1..] == z[2..n];
      } else {
        assert z[1..n] == [];
      }
    }
  }

  /** The line counter moves on by the newlines of the token, except in a quoted token that
      hides one; then it falls behind. */
  lemma TokenLinesIff(z: string)
    requires z != []
    ensures TokenLines(z) <= Newlines(z[..TokenLen(z)])
    ensures TokenLines(z) == Newlines(z[..TokenLen(z)]) <==> !(IsQuoted(z) && Hides(z[1..], z[0]))
  {
    if IsQuoted(z) {
      QuotedLinesIff(z[1..], z[0]);
      assert z[..TokenLen(z)][1..] == z[1..][..QuotedLen(z[1..], z[0])];
    }
  }

  /** The line counter after all tokens of the script, and whether some token hides a
      newline. */
  function Lines(z: string): nat {
    if z == [] then 0 else TokenLines(z) + Lines(z[TokenLen(z)..])
  }

  predicate SomeHides(z: string) {
    z != [] && ((IsQuoted(z) && Hides(z[1..], z[0])) || SomeHides(z[TokenLen(z)..]))
  }

  /** At the end of a script the counter has counted every newline exactly if no quoted
      token hides one. */
  lemma {:induction false} LinesIff(z: string)
    ensures Lines(z) <= Newlines(z) && (Lines(z) == Newlines(z) <==> !SomeHides(z))
  {
    if z != [] {
      var n := TokenLen(z);
      TokenLinesIff(z);
      LinesIff(z[n..]);
      NewlinesAppend(z[..n], z[n..]);
      assert z[..n] + z[n..] == z;
    }
  }

  /** Blanks and comments are taken together, up to a character that is neither. */
  lemma {:induction false} BlankEnds(z: string, inComment: bool)
    ensures var n := BlankLen(z, inComment);
            n < |z| ==> !IsSpace(z[n]) && !(z[n] == '/' && At(z, n + 1) == '*')
  {
    if z != [] && BlankLen(z, inComment) > 0 {
      if !IsSpace(z[0]) && inComment && ClosesComment(z) {
        BlankEnds(z[2..], false);
      } else if !IsSpace(z[0]) && !inComment {
        BlankEnds(z[2..], true);
      } else {
        BlankEnds(z[1..], inComment);
      }
    }
  }

  /** A word goes up to the first blank, quote or semicolon. */
  lemma {:induction false} WordEnds(z: string)
    ensures var n := WordLen(z);
            (forall i :: 0 <= i < n ==> !EndsWord(z[i])) && (n < |z| ==> EndsWord(z[n]))
  {
    if z != [] && !EndsWord(z[0]) {
      WordEnds(z[1..]);
    }
  }

  method BlankLength(z: string) returns (n: nat, lines: nat)
    requires z != [] && (IsSpace(z[0]) || OpensComment(z))
    ensures n == TokenLen(z) && lines == TokenLines(z)
  {
    var inComment := z[0] == '/';
    n, lines := if inComment then 2 else 0, 0;
    StartHasNoNewline(z);
    while true
      invariant n <= |z| && lines == Newlines(z[..n])
      invariant TokenLen(z) == n + BlankLen(z[n..], inComment)
      decreases |z| - n
    {
      if n >= |z| {
        return;
      }
      ghost var y := z[n..];
      var c := z[n];
      assert y[0] == c && At(y, 1) == At(z, n + 1) && |y| == |z| - n;
      NewlinesNext(z, n);
      n := n + 1;
      assert y[1..] == z[n..];
      if c == '\n' {
        lines := lines + 1;
      }
      if IsSpace(c) {
        continue;
      }
      if inComment && c == '*' && n < |z| && z[n] == '/' {
        NewlinesNext(z, n);
        n := n + 1;
        assert y[2..] == z[n..];
        inComment := false;
      } else if !inComment && c == '/' && n < |z| && z[n] == '*' {
        NewlinesNext(z, n);
        n := n + 1;
        assert y[2..] == z[n..];
        inComment := true;
      } else if !inComment {
        n := n - 1;
        return;
      }
    }
  }

  lemma StartHasNoNewline(z: string)
    ensures Newlines(z[..0]) == 0
    ensures OpensComment(z) || IsCommand(z) ==> Newlines(z[..2]) == 0
    ensures z != [] && z[0] != '\n' ==> Newlines(z[..1]) == 0
  {
    if z != [] {
      NewlinesNext(z, 0);
      if |z| > 1 {
        NewlinesNext(z, 1);
      }
    }
  }

  method LineLength(z: string) returns (n: nat, lines: nat)
    requires IsCommand(z)
    ensures n == TokenLen(z) && lines == TokenLines(z)
  {
    n, lines := 2, 0;
    StartHasNoNewline(z);
    while n < |z| && z[n] != '\n'
      invariant 2 <= n <= |z| && Newlines(z[..n]) == 0
      invariant TokenLen(z) == n + LineLen(z[n..])
    {
      assert z[n..][1..] == z[n + 1..];
      NewlinesNext(z, n);
      n := n + 1;
    }
    if n < |z| {
      NewlinesNext(z, n);
      lines := lines + 1;
      n := n + 1;
    }
  }

  method QuotedLength(z: string) returns (n: nat, lines: nat)
    requires IsQuoted(z)
    ensures n == TokenLen(z) && lines == TokenLines(z)
  {
    var delim := z[0];
    n, lines := 1, 0;
    while n < |z|
      invariant 1 <= n <= |z|
      invariant TokenLen(z) == n + QuotedLen(z[n..], delim)
      invariant TokenLines(z) == lines + QuotedLines(z[n..], delim)
    {
      ghost var y := z[n..];
      if z[n] == '\n' {
        lines := lines + 1;
      }
      if z[n] == delim {
        n := n + 1;
        if n >= |z| || At(z, n + 1) != delim {
          return;
        }
        assert y[2] == delim && y[2..] == z[n + 1..];
      } else {
        assert y[1..] == z[n + 1..];
      }
      n := n + 1;
    }
  }

  method WordLength(z: string) returns (n: nat)
    requires z != [] && !IsSpace(z[0]) && !OpensComment(z) && !IsCommand(z) && !IsQuoted(z)
    ensures n == TokenLen(z) && TokenLines(z) == 0
  {
    n := 1;
    StartHasNoNewline(z);
    while n < |z|
      invariant 1 <= n <= |z| && Newlines(z[..n]) == 0
      invariant TokenLen(z) == n + WordLen(z[n..])
    {
      var c := z[n];
      if IsSpace(c) || c == '"' || c == '\'' || c == ';' {
        break;
      }
      assert z[n..][1..] == z[n + 1..];
      NewlinesNext(z, n);
      n := n + 1;
    }
  }

  /** Always between 1 and what is left of a script that is not at its end; `lines` is what
      the line counter moves on by. */
  method TokenLength(z: string) returns (n: nat, lines: nat)
    ensures n == TokenLen(z) && lines == TokenLines(z)
    ensures z != [] ==> 1 <= n <= |z| && lines <= Newlines(z[..n])
  {
    if |z| == 0 {
      return 1, 0;
    }
    TokenLinesIff(z);
    if IsSpace(z[0]) || (z[0] == '/' && |z| > 1 && z[1] == '*') {
      n, lines := BlankLength(z);
    } else if z[0] == '-' && |z| > 1 && z[1] == '-' {
      n, lines := LineLength(z);
    } else if z[0] == '"' || z[0] == '\'' {
      n, lines := QuotedLength(z);
    } else {
      n := WordLength(z);
      lines := 0;
    }
  }

  // ---------- the token stream ----------

  /** The text starts with the word and a blank after it. */
  predicate Is(word: string, z: string)
    decreases |z|
  {
    if z == [] then false
    else if word == [] then IsSpace(z[0])
    else word[0] == z[0] && Is(word[1..], z[1..])
  }

  const END := "--end"
  const IF := "--if"
  const ELSE := "--else"
  const ENDIF := "--endif"

  lemma {:induction false} IsReadsAhead(word: string, z: string, n: nat)
    requires |word| < n <= |z|
    ensures Is(word, z[..n]) <==> Is(word, z)
    decreases |z|
  {
    if word != [] {
      IsReadsAhead(word[1..], z[1..], n - 1);
      assert z[..n][1..] == z[1..][..n - 1];
    }
  }

  lemma {:induction false} IsNeedsRoom(word: string, z: string)
    requires Is(word, z)
    ensures |word| < |z| && word == z[..|word|]
    decreases |z|
  {
    if word != [] {
      IsNeedsRoom(word[1..], z[1..]);
      assert z[..|word|] == [z[0]] + z[1..][..|word| - 1];
      assert word == [word[0]] + word[1..];
    }
  }

  /** A command lies in one token, so looking at the token is looking at the script. */
  lemma CommandInToken(word: string, z: string)
    requires z != [] && |word| > 2 && IsCommand(word) && forall i :: 0 <= i < |word| ==> word[i] != '\n'
    ensures Is(word, z) <==> Is(word, z[..TokenLen(z)])
  {
    if Is(word, z) {
      IsNeedsRoom(word, z);
      assert z[0] == word[0] && z[1] == word[1];
      var y, n := z[2..], LineLen(z[2..]);
      assert forall i :: 2 <= i < |word| ==> y[i - 2] == word[i];
      IsReadsAhead(word, z, TokenLen(z));
    } else if Is(word, z[..TokenLen(z)]) {
      IsNeedsRoom(word, z[..TokenLen(z)]);
      IsReadsAhead(word, z, TokenLen(z));
    }
  }

  /** What a token is to the searches below. */
  datatype Kind = End | If | Else | Endif | Other

  function KindOf(z: string): Kind {
    if Is(ENDIF, z) then Endif
    else if Is(ELSE, z) then Else
    else if Is(IF, z) then If
    else if Is(END, z) then End
    else Other
  }

  /** The text starts with the command and a blank, or a tab, newline or the like, behind it. */
  predicate StartsWith(z: string, word: string) {
    |word| < |z| && z[..|word|] == word && IsSpace(z[|word|])
  }

  lemma {:induction false} IsStart(word: string, z: string)
    ensures Is(word, z) <==> StartsWith(z, word)
    decreases |z|
  {
    if word != [] && z != [] {
      IsStart(word[1..], z[1..]);
      if |word| < |z| {
        assert z[..|word|] == [z[0]] + z[1..][..|word| - 1];
        assert word == [word[0]] + word[1..];
      }
    }
  }

  lemma CommandsDiffer(z: string)
    ensures StartsWith(z, "--if") ==> !StartsWith(z, "--else") && !StartsWith(z, "--end") && !StartsWith(z, "--endif")
    ensures StartsWith(z, "--else") ==> !StartsWith(z, "--end") && !StartsWith(z, "--endif")
    ensures StartsWith(z, "--end") ==> !StartsWith(z, "--endif")
  {
    assert StartsWith(z, "--if") ==> z[..4][2] == 'i';
    assert StartsWith(z, "--else") ==> z[..6][3] == 'l' && z[..6][2] == 'e';
    assert StartsWith(z, "--end") ==> z[..5][3] == 'n' && z[..5][2] == 'e';
    assert StartsWith(z, "--endif") ==> z[..7][3] == 'n' && z[..7][2] == 'e' && z[..7][5] == 'i';
  }

  /** Which texts are which kind of token: those that start with the command of that name. */
  lemma KindIs(z: string)
    ensures KindOf(z) == If <==> StartsWith(z, "--if")
    ensures KindOf(z) == Else <==> StartsWith(z, "--else")
    ensures KindOf(z) == Endif <==> StartsWith(z, "--endif")
    ensures KindOf(z) == End <==> StartsWith(z, "--end")
  {
    IsStart("--if", z);
    IsStart("--else", z);
    IsStart("--endif", z);
    IsStart("--end", z);
    CommandsDiffer(z);
  }

  datatype Token = Token(kind: Kind, text: string)

  function Tokens(z: string): seq<Token> {
    if z == [] then [] else [Token(KindOf(z), z[..TokenLen(z)])] + Tokens(z[TokenLen(z)..])
  }

  function Concat(tokens: seq<Token>): string {
    if tokens == [] then "" else tokens[0].text + Concat(tokens[1..])
  }

  /** The tokens tile the script: none is lost and none overlaps. */
  lemma {:induction false} TokensTile(z: string)
    ensures Concat(Tokens(z)) == z
  {
    if z != [] {
      var n := TokenLen(z);
      TokensTile(z[n..]);
      TileStep(z, n, KindOf(z), Tokens(z[n..]));
    }
  }

  lemma TileStep(z: string, n: nat, kind: Kind, rest: seq<Token>)
    requires n <= |z| && Concat(rest) == z[n..]
    ensures Concat([Token(kind, z[..n])] + rest) == z
  {
    assert ([Token(kind, z[..n])] + rest)[1..] == rest;
  }

  /** Every token takes something off the script. */
  lemma {:induction false} TokensAreNotEmpty(z: string)
    ensures forall t :: t in Tokens(z) ==> t.text != []
  {
    if z != [] {
      TokensAreNotEmpty(z[TokenLen(z)..]);
    }
  }

  /** The token at position n, and where the next one starts. */
  method NextToken(z: string, n: nat) returns (kind: Kind, next: nat)
    requires n < |z|
    ensures n < next <= |z|
    ensures Tokens(z[n..]) == [Token(kind, z[n..next])] + Tokens(z[next..])
  {
    var len, _ := TokenLength(z[n..]);
    next := n + len;
    assert z[n..][len..] == z[next..] && z[n..][..len] == z[n..next];
    kind := KindOf(z[n..]);
  }

  // ---------- find_end ----------

  /** The tokens from the first `--end` on. */
  function FromEnd(tokens: seq<Token>): seq<Token> {
    if tokens == [] || tokens[0].kind == End then tokens else FromEnd(tokens[1..])
  }

  method FindEnd(z: string) returns (n: nat)
    ensures n <= |z| && Tokens(z[n..]) == FromEnd(Tokens(z))
  {
    n := 0;
    assert z[0..] == z;
    while n < |z|
      invariant n <= |z| && FromEnd(Tokens(z)) == FromEnd(Tokens(z[n..]))
      decreases |z| - n
    {
      var kind, next := NextToken(z, n);
      if kind == End {
        return;
      }
      n := next;
    }
  }

  /** `FindEnd` stops before the first `--end` token, or at the end of the text. */
  lemma {:induction false} FromEndIsFirst(tokens: seq<Token>) returns (n: nat)
    ensures n <= |tokens| && FromEnd(tokens) == tokens[n..]
    ensures forall i :: 0 <= i < n ==> tokens[i].kind != End
    ensures n < |tokens| ==> tokens[n].kind == End
  {
    if tokens == [] || tokens[0].kind == End {
      n := 0;
    } else {
      var m := FromEndIsFirst(tokens[1..]);
      n := m + 1;
    }
  }

  // ---------- find_endif ----------

  predicate Stops(t: Token, stopAtElse: bool) {
    t.kind == Endif || (stopAtElse && t.kind == Else)
  }

  /** What is left after the `--endif`, or `--else` when asked for, that closes this level;
      an `--if` inside is skipped by a nested search that stops at its `--endif`. */
  function AfterEndif(tokens: seq<Token>, stopAtElse: bool): (rest: seq<Token>)
    ensures |rest| <= |tokens|
    decreases |tokens|
  {
    if tokens == [] then []
    else if Stops(tokens[0], stopAtElse) then tokens[1..]
    else if tokens[0].kind == If then AfterEndif(AfterEndif(tokens[1..], false), stopAtElse)
    else AfterEndif(tokens[1..], stopAtElse)
  }

  /** What one turn of the search loop leaves to look at. */
  function SkipOne(t: Token, rest: seq<Token>): seq<Token> {
    if t.kind == If then AfterEndif(rest, false) else rest
  }

  lemma AfterEndifStep(tokens: seq<Token>, t: Token, rest: seq<Token>, stopAtElse: bool)
    requires tokens == [t] + rest
    ensures AfterEndif(tokens, stopAtElse) ==
            if Stops(t, stopAtElse) then rest else AfterEndif(SkipOne(t, rest), stopAtElse)
  {
    assert tokens[1..] == rest;
  }

  method FindEndif(z: string, stopAtElse: bool) returns (n: nat)
    ensures n <= |z| && Tokens(z[n..]) == AfterEndif(Tokens(z), stopAtElse)
    decreases |z|, 1
  {
    n := 0;
    assert z[0..] == z;
    while n < |z|
      invariant n <= |z| && AfterEndif(Tokens(z[n..]), stopAtElse) == AfterEndif(Tokens(z), stopAtElse)
      decreases |z| - n
    {
      ghost var tokens := Tokens(z[n..]);
      var kind, next := NextToken(z, n);
      var t := Token(kind, z[n..next]);
      AfterEndifStep(tokens, t, Tokens(z[next..]), stopAtElse);
      if kind == Endif || (stopAtElse && kind == Else) {
        return next;
      }
      n := SkipNested(z, next, t);
    }
    assert z[n..] == [];
  }

  method SkipNested(z: string, next: nat, t: Token) returns (n: nat)
    requires 0 < next <= |z|
    ensures next <= n <= |z| && Tokens(z[n..]) == SkipOne(t, Tokens(z[next..]))
    decreases |z|, 0
  {
    n := next;
    if t.kind == If {
      var skip := FindEndif(z[next..], false);
      n := next + skip;
      assert z[next..][skip..] == z[n..];
    }
  }

  /** The same search with a counter of open `--if`s instead of recursion. */
  function Scan(tokens: seq<Token>, depth: nat, stopAtElse: bool): seq<Token> {
    if tokens == [] then []
    else if depth == 0 && Stops(tokens[0], stopAtElse) then tokens[1..]
    else Scan(tokens[1..], depth + Opens(tokens[0], depth), stopAtElse)
  }

  /** How a token changes the number of open `--if`s. */
  function Opens(t: Token, depth: nat): (d: int)
    ensures depth + d >= 0
  {
    if t.kind == If then 1 else if t.kind == Endif && depth > 0 then -1 else 0
  }

  lemma {:induction false} NestedThenRest(tokens: seq<Token>, depth: nat, stopAtElse: bool)
    ensures Scan(tokens, depth + 1, stopAtElse) == Scan(AfterEndif(tokens, false), depth, stopAtElse)
    decreases |tokens|
  {
    if tokens != [] && tokens[0].kind != Endif {
      if tokens[0].kind == If {
        NestedThenRest(tokens[1..], depth + 1, stopAtElse);
        NestedThenRest(AfterEndif(tokens[1..], false), depth, stopAtElse);
      } else {
        NestedThenRest(tokens[1..], depth, stopAtElse);
      }
    }
  }

  /** The recursive search finds what the counter finds. */
  lemma {:induction false} RecursionIsCounting(tokens: seq<Token>, stopAtElse: bool)
    ensures AfterEndif(tokens, stopAtElse) == Scan(tokens, 0, stopAtElse)
    decreases |tokens|
  {
    if tokens != [] && !Stops(tokens[0], stopAtElse) {
      if tokens[0].kind == If {
        NestedThenRest(tokens[1..], 0, stopAtElse);
        RecursionIsCounting(AfterEndif(tokens[1..], false), stopAtElse);
      } else {
        RecursionIsCounting(tokens[1..], stopAtElse);
      }
    }
  }

  /** How many more `--if` than `--endif` tokens. */
  function Level(tokens: seq<Token>): int {
    if tokens == [] then 0
    else (if tokens[0].kind == If then 1 else if tokens[0].kind == Endif then -1 else 0) + Level(tokens[1..])
  }

  /** The token closes the level that was open `depth` deep before the list. */
  predicate Closes(tokens: seq<Token>, i: nat, depth: nat, stopAtElse: bool)
    requires i < |tokens|
  {
    depth + Level(tokens[..i]) == 0 && Stops(tokens[i], stopAtElse)
  }

  ghost predicate EndsAtFirstClose(tokens: seq<Token>, n: nat, depth: nat, stopAtElse: bool) {
    && n <= |tokens|
    && (forall i :: 0 <= i < n - 1 ==> !Closes(tokens, i, depth, stopAtElse))
    && if n == 0 then tokens == [] else Closes(tokens, n - 1, depth, stopAtElse) || n == |tokens|
  }

  lemma {:induction false} ScanEndsAtFirstClose(tokens: seq<Token>, depth: nat, stopAtElse: bool) returns (n: nat)
    ensures EndsAtFirstClose(tokens, n, depth, stopAtElse) && Scan(tokens, depth, stopAtElse) == tokens[n..]
  {
    if tokens == [] {
      n := 0;
    } else {
      assert Closes(tokens, 0, depth, stopAtElse) <==> depth == 0 && Stops(tokens[0], stopAtElse);
      if Closes(tokens, 0, depth, stopAtElse) {
        n := 1;
      } else {
        var rest, deeper := tokens[1..], depth + Opens(tokens[0], depth);
        var m := ScanEndsAtFirstClose(rest, deeper, stopAtElse);
        n := m + 1;
        forall i | 0 < i < |tokens|
          ensures Closes(tokens, i, depth, stopAtElse) <==> Closes(rest, i - 1, deeper, stopAtElse)
        {
          assert tokens[..i][1..] == rest[..i - 1];
        }
      }
    }
  }

  /** `FindEndif` skips the tokens up to and including the first `--endif`, or `--else` when
      asked for, before which every `--if` has its `--endif`; without one it skips all. */
  lemma SkipsToMatchingEndif(tokens: seq<Token>, stopAtElse: bool) returns (n: nat)
    ensures EndsAtFirstClose(tokens, n, 0, stopAtElse)
    ensures AfterEndif(tokens, stopAtElse) == tokens[n..]
  {
    RecursionIsCounting(tokens, stopAtElse);
    n := ScanEndsAtFirstClose(tokens, 0, stopAtElse);
  }
}
