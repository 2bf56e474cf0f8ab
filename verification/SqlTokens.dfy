/** The two SQL scanners: `tokenize` on the server (api/internal/query/risk.go), which drops
    quoted text, and `tokenizeSql` in the browser (web/src/features/workspace/ddl.ts), which
    keeps it. The browser scans the characters of a text, the server the bytes of its UTF-8
    encoding; a byte is written as the character of that number. */
module SqlTokens {
  datatype Token = Token(text: string, depth: nat)

  /** `isSpace` of the server. */
  predicate GoSpace(c: char) {
    c == ' ' || c == '\t' || c == '\n' || c == '\r'
  }

  /** `\s` of a JavaScript regular expression. */
  predicate JsSpace(c: char) {
    || GoSpace(c) || c == '\U{0B}' || c == '\U{0C}' || c == '\U{A0}' || c == '\U{1680}'
    || '\U{2000}' <= c <= '\U{200A}' || c == '\U{2028}' || c == '\U{2029}' || c == '\U{202F}'
    || c == '\U{205F}' || c == '\U{3000}' || c == '\U{FEFF}'
  }

  predicate IsQuote(c: char) {
    c == '\'' || c == '"' || c == '`'
  }

  predicate Delimits(c: char) {
    c == '(' || c == ')' || c == ',' || c == ';' || IsQuote(c)
  }

  // ---------------------------------------------------------------- what one scan step consumes

  /** Characters before the next newline. */
  function LineLen(s: string): (n: nat)
    ensures n <= |s|
  {
    if s == "" || s[0] == '\n' then 0 else 1 + LineLen(s[1..])
  }

  /** The rest of a block comment after its opening. Unterminated, it stops before the last
      character, which is then scanned as ordinary text. */
  function BlockLen(s: string): (n: nat)
    ensures n <= |s|
  {
    if |s| < 2 then 0
    else if s[0] == '*' && s[1] == '/' then 2
    else 1 + BlockLen(s[1..])
  }

  /** The rest of a quoted section after its opening quote: doubled quotes and backslash pairs
      stay inside. */
  function QuoteLen(s: string, q: char): (n: nat)
    ensures n <= |s|
  {
    if s == "" then 0
    else if s[0] == q then
      if |s| > 1 && s[1] == q then 2 + QuoteLen(s[2..], q) else 1
    else if s[0] == '\\' && |s| > 1 then 2 + QuoteLen(s[2..], q)
    else 1 + QuoteLen(s[1..], q)
  }

  function GoRun(s: string): (n: nat)
    ensures n <= |s|
  {
    if s == "" || GoSpace(s[0]) || Delimits(s[0]) then 0 else 1 + GoRun(s[1..])
  }

  function JsRun(s: string): (n: nat)
    ensures n <= |s|
  {
    if s == "" || JsSpace(s[0]) || Delimits(s[0]) then 0 else 1 + JsRun(s[1..])
  }

  /** The text the browser accumulates for a quoted section after its opening quote. */
  function QuoteText(s: string, q: char): string {
    if s == "" then ""
    else if s[0] == q then
      if |s| > 1 && s[1] == q then [q, q] + QuoteText(s[2..], q) else [q]
    else if s[0] == '\\' && |s| > 1 then s[..2] + QuoteText(s[2..], q)
    else [s[0]] + QuoteText(s[1..], q)
  }

  /** The text of the token for a quoted section. */
  function QuotedText(s: string): (text: string)
    requires s != ""
    ensures text != "" && text[0] == s[0]
  {
    [s[0]] + QuoteText(s[1..], s[0])
  }

  predicate Starts(s: string, a: char, b: char) {
    |s| > 1 && s[0] == a && s[1] == b
  }

  function Closed(depth: nat): nat {
    if depth > 0 then depth - 1 else 0
  }

  // ---------------------------------------------------------------- the token lists

  /** What a scanner does at the start of the remaining text. */
  datatype Scan = Skip(n: nat) | Quoted(n: nat) | Open | Close | Plain(n: nat)

  predicate InBounds(scan: Scan, s: string) {
    scan.Open? || scan.Close? || 1 <= scan.n <= |s|
  }

  function GoScan(s: string): (scan: Scan)
    requires s != ""
    ensures InBounds(scan, s)
  {
    if GoSpace(s[0]) then Skip(1)
    else if Starts(s, '-', '-') then Skip(2 + LineLen(s[2..]))
    else if Starts(s, '/', '*') then Skip(2 + BlockLen(s[2..]))
    else if IsQuote(s[0]) then Quoted(1 + QuoteLen(s[1..], s[0]))
    else if s[0] == '(' then Open
    else if s[0] == ')' then Close
    else if GoRun(s) > 0 then Plain(GoRun(s))
    else Skip(1)
  }

  function JsScan(s: string): (scan: Scan)
    requires s != ""
    ensures InBounds(scan, s)
  {
    if JsSpace(s[0]) then Skip(1)
    else if Starts(s, '-', '-') then Skip(2 + LineLen(s[2..]))
    else if Starts(s, '/', '*') then Skip(2 + BlockLen(s[2..]))
    else if IsQuote(s[0]) then Quoted(1 + QuoteLen(s[1..], s[0]))
    else if s[0] == '(' then Open
    else if s[0] == ')' then Close
    else if JsRun(s) > 0 then Plain(JsRun(s))
    else Skip(1)
  }

  /** The tokens of the server's scanner. */
  function GoTokens(s: string, depth: nat): seq<Token>
    decreases |s|
  {
    if s == "" then []
    else
      match GoScan(s)
      case Skip(n) => GoTokens(s[n..], depth)
      case Quoted(n) => GoTokens(s[n..], depth)
      case Open => GoTokens(s[1..], depth + 1)
      case Close => GoTokens(s[1..], Closed(depth))
      case Plain(n) => [Token(s[..n], depth)] + GoTokens(s[n..], depth)
  }

  /** The tokens of the browser's scanner. */
  function JsTokens(s: string, depth: nat): seq<Token>
    decreases |s|
  {
    if s == "" then []
    else
      match JsScan(s)
      case Skip(n) => JsTokens(s[n..], depth)
      case Quoted(n) => [Token(QuotedText(s), depth)] + JsTokens(s[n..], depth)
      case Open => JsTokens(s[1..], depth + 1)
      case Close => JsTokens(s[1..], Closed(depth))
      case Plain(n) => [Token(s[..n], depth)] + JsTokens(s[n..], depth)
  }

  // ---------------------------------------------------------------- the scanners

  lemma Suffix(s: string, i: nat, n: nat)
    requires i + n <= |s|
    ensures s[i..][n..] == s[i + n..] && s[i..][..n] == s[i..i + n]
  {
  }

  lemma SuffixOf(s: string, rest: string, i: nat, n: nat)
    requires i + n <= |s| && rest == s[i..]
    ensures rest[n..] == s[i + n..] && rest[..n] == s[i..i + n]
  {
  }

  lemma Append(result: seq<Token>, t: Token, rest: seq<Token>)
    ensures result + ([t] + rest) == (result + [t]) + rest
  {
  }

  /** The position after a step of either scanner. */
  function Advance(i: nat, scan: Scan): nat {
    if scan.Open? || scan.Close? then i + 1 else i + scan.n
  }

  function DepthAfter(depth: nat, scan: Scan): nat {
    if scan.Open? then depth + 1 else if scan.Close? then Closed(depth) else depth
  }

  /** The server's loop, `acc` being the tokens emitted so far. */
  function GoLoop(acc: seq<Token>, s: string, depth: nat): seq<Token>
    decreases |s|
  {
    if s == "" then acc
    else
      match GoScan(s)
      case Skip(n) => GoLoop(acc, s[n..], depth)
      case Quoted(n) => GoLoop(acc, s[n..], depth)
      case Open => GoLoop(acc, s[1..], depth + 1)
      case Close => GoLoop(acc, s[1..], Closed(depth))
      case Plain(n) => GoLoop(acc + [Token(s[..n], depth)], s[n..], depth)
  }

  lemma {:induction false} GoLoopIsTokens(acc: seq<Token>, s: string, depth: nat)
    ensures GoLoop(acc, s, depth) == acc + GoTokens(s, depth)
    decreases |s|
  {
    if s == "" {
      assert acc + [] == acc;
    } else {
      match GoScan(s)
      case Skip(n) => GoLoopIsTokens(acc, s[n..], depth);
      case Quoted(n) => GoLoopIsTokens(acc, s[n..], depth);
      case Open => GoLoopIsTokens(acc, s[1..], depth + 1);
      case Close => GoLoopIsTokens(acc, s[1..], Closed(depth));
      case Plain(n) =>
        GoLoopIsTokens(acc + [Token(s[..n], depth)], s[n..], depth);
        Append(acc, Token(s[..n], depth), GoTokens(s[n..], depth));
    }
  }

  /** The tokens after one step of the server's loop at position `i`. */
  function GoEmit(result: seq<Token>, sql: string, i: nat, depth: nat, scan: Scan): seq<Token>
    requires i < |sql| && InBounds(scan, sql[i..])
  {
    if scan.Plain? then result + [Token(sql[i..i + scan.n], depth)]
    else result
  }

  lemma GoAdvance(result: seq<Token>, sql: string, i: nat, depth: nat)
    requires i < |sql|
    ensures var scan := GoScan(sql[i..]);
            && i < Advance(i, scan) <= |sql|
            && GoLoop(result, sql[i..], depth)
               == GoLoop(GoEmit(result, sql, i, depth, scan), sql[Advance(i, scan)..], DepthAfter(depth, scan))
  {
    Suffix(sql, i, Advance(0, GoScan(sql[i..])));
  }

  /** The step of the server's scanner at position `i`: which branch is taken and where it
      ends. */
  method GoBranch(sql: string, i: nat) returns (scan: Scan)
    requires i < |sql|
    ensures scan == GoScan(sql[i..])
  {
    ghost var rest := sql[i..];
    if GoSpace(sql[i]) {
      return Skip(1);
    } else if sql[i] == '-' && i + 1 < |sql| && sql[i + 1] == '-' {
      var end := SkipLine(sql, i + 2);
      Suffix(sql, i, 2);
      return Skip(end - i);
    } else if sql[i] == '/' && i + 1 < |sql| && sql[i + 1] == '*' {
      var end := SkipBlock(sql, i + 2);
      Suffix(sql, i, 2);
      return Skip(end - i);
    } else if IsQuote(sql[i]) {
      var end := SkipQuote(sql, i + 1, sql[i]);
      Suffix(sql, i, 1);
      return Quoted(end - i);
    } else if sql[i] == '(' {
      return Open;
    } else if sql[i] == ')' {
      return Close;
    } else {
      var end := SkipGoRun(sql, i);
      return if end > i then Plain(end - i) else Skip(1);
    }
  }

  /** `tokenize`. */
  method Tokenize(sql: string) returns (result: seq<Token>)
    ensures result == GoTokens(sql, 0)
  {
    result := [];
    var depth: nat := 0;
    var i := 0;
    ghost var all := GoLoop([], sql, 0);
    assert sql[0..] == sql;
    GoLoopIsTokens([], sql, 0);
    while i < |sql|
      invariant 0 <= i <= |sql|
      invariant GoLoop(result, sql[i..], depth) == all
      decreases |sql| - i
    {
      var scan := GoBranch(sql, i);
      GoAdvance(result, sql, i, depth);
      if scan.Plain? {
        result := result + [Token(sql[i..i + scan.n], depth)];
      }
      depth := DepthAfter(depth, scan);
      i := Advance(i, scan);
    }
  }

  /** The server's loop over plain text. */
  method SkipGoRun(sql: string, from: nat) returns (i: nat)
    requires from <= |sql|
    ensures i == from + GoRun(sql[from..])
  {
    i := from;
    while i < |sql| && !GoSpace(sql[i]) && !Delimits(sql[i])
      invariant from <= i <= |sql|
      invariant GoRun(sql[from..]) == i - from + GoRun(sql[i..])
    {
      assert sql[i..][1..] == sql[i + 1..];
      i := i + 1;
    }
  }

  /** The browser's loop, `acc` being the tokens emitted so far. */
  function JsLoop(acc: seq<Token>, s: string, depth: nat): seq<Token>
    decreases |s|
  {
    if s == "" then acc
    else
      match JsScan(s)
      case Skip(n) => JsLoop(acc, s[n..], depth)
      case Quoted(n) => JsLoop(acc + [Token(QuotedText(s), depth)], s[n..], depth)
      case Open => JsLoop(acc, s[1..], depth + 1)
      case Close => JsLoop(acc, s[1..], Closed(depth))
      case Plain(n) => JsLoop(acc + [Token(s[..n], depth)], s[n..], depth)
  }

  lemma {:induction false} JsLoopIsTokens(acc: seq<Token>, s: string, depth: nat)
    ensures JsLoop(acc, s, depth) == acc + JsTokens(s, depth)
    decreases |s|
  {
    if s == "" {
      assert acc + [] == acc;
    } else {
      match JsScan(s)
      case Skip(n) => JsLoopIsTokens(acc, s[n..], depth);
      case Quoted(n) =>
        var t := Token(QuotedText(s), depth);
        JsLoopIsTokens(acc + [t], s[n..], depth);
        Append(acc, t, JsTokens(s[n..], depth));
      case Open => JsLoopIsTokens(acc, s[1..], depth + 1);
      case Close => JsLoopIsTokens(acc, s[1..], Closed(depth));
      case Plain(n) =>
        JsLoopIsTokens(acc + [Token(s[..n], depth)], s[n..], depth);
        Append(acc, Token(s[..n], depth), JsTokens(s[n..], depth));
    }
  }

  /** The tokens after one step of the browser's loop at position `i`. */
  function JsEmit(result: seq<Token>, sql: string, i: nat, depth: nat, scan: Scan): seq<Token>
    requires i < |sql| && InBounds(scan, sql[i..])
  {
    if scan.Plain? then result + [Token(sql[i..i + scan.n], depth)]
    else if scan.Quoted? then result + [Token(QuotedText(sql[i..]), depth)]
    else result
  }

  lemma JsAdvance(result: seq<Token>, sql: string, i: nat, depth: nat)
    requires i < |sql|
    ensures var scan := JsScan(sql[i..]);
            && i < Advance(i, scan) <= |sql|
            && JsLoop(result, sql[i..], depth)
               == JsLoop(JsEmit(result, sql, i, depth, scan), sql[Advance(i, scan)..], DepthAfter(depth, scan))
  {
    Suffix(sql, i, Advance(0, JsScan(sql[i..])));
  }

  /** The step of the browser's scanner at position `i`; `text` is what it collected of a
      quoted section. */
  method JsBranch(sql: string, i: nat) returns (scan: Scan, text: string)
    requires i < |sql|
    ensures scan == JsScan(sql[i..])
    ensures scan.Quoted? ==> text == QuotedText(sql[i..])
  {
    var ch := sql[i];
    text := "";
    if JsSpace(ch) {
      return Skip(1), text;
    }
    if ch == '-' && i + 1 < |sql| && sql[i + 1] == '-' {
      var end := SkipLine(sql, i + 2);
      Suffix(sql, i, 2);
      return Skip(end - i), text;
    }
    if ch == '/' && i + 1 < |sql| && sql[i + 1] == '*' {
      var end := SkipBlock(sql, i + 2);
      Suffix(sql, i, 2);
      return Skip(end - i), text;
    }
    if IsQuote(ch) {
      var end, quoted := ReadQuote(sql, i + 1, ch);
      Suffix(sql, i, 1);
      return Quoted(end - i), quoted;
    }
    if ch == '(' {
      return Open, text;
    }
    if ch == ')' {
      return Close, text;
    }
    var end := SkipJsRun(sql, i);
    scan := if end > i then Plain(end - i) else Skip(1);
  }

  /** `tokenizeSql`. */
  method TokenizeSql(sql: string) returns (result: seq<Token>)
    ensures result == JsTokens(sql, 0)
  {
    result := [];
    var depth: nat := 0;
    var i := 0;
    ghost var all := JsLoop([], sql, 0);
    assert sql[0..] == sql;
    JsLoopIsTokens([], sql, 0);
    while i < |sql|
      invariant 0 <= i <= |sql|
      invariant JsLoop(result, sql[i..], depth) == all
      decreases |sql| - i
    {
      var scan, text := JsBranch(sql, i);
      JsAdvance(result, sql, i, depth);
      if scan.Plain? {
        result := result + [Token(sql[i..i + scan.n], depth)];
      }
      if scan.Quoted? {
        result := result + [Token(text, depth)];
      }
      depth := DepthAfter(depth, scan);
      i := Advance(i, scan);
    }
  }

  /** The browser's loop over plain text. */
  method SkipJsRun(sql: string, from: nat) returns (i: nat)
    requires from <= |sql|
    ensures i == from + JsRun(sql[from..])
  {
    i := from;
    while i < |sql| && !JsSpace(sql[i]) && !Delimits(sql[i])
      invariant from <= i <= |sql|
      invariant JsRun(sql[from..]) == i - from + JsRun(sql[i..])
    {
      assert sql[i..][1..] == sql[i + 1..];
      i := i + 1;
    }
  }

  /** The browser's quote loop, `text` being what it has collected. */
  function QuoteLoop(text: string, s: string, q: char): string
    decreases |s|
  {
    if s == "" then text
    else if s[0] == q then
      if |s| > 1 && s[1] == q then QuoteLoop(text + [q] + [q], s[2..], q) else text + [q]
    else if s[0] == '\\' && |s| > 1 then QuoteLoop(text + s[..2], s[2..], q)
    else QuoteLoop(text + [s[0]], s[1..], q)
  }

  lemma {:induction false} QuoteLoopIsText(text: string, s: string, q: char)
    ensures QuoteLoop(text, s, q) == text + QuoteText(s, q)
    decreases |s|
  {
    if s == "" {
      assert text + "" == text;
    } else if s[0] == q {
      if |s| > 1 && s[1] == q {
        QuoteLoopIsText(text + [q] + [q], s[2..], q);
        assert text + [q] + [q] + QuoteText(s[2..], q) == text + ([q, q] + QuoteText(s[2..], q));
      }
    } else if s[0] == '\\' && |s| > 1 {
      QuoteLoopIsText(text + s[..2], s[2..], q);
      assert text + s[..2] + QuoteText(s[2..], q) == text + (s[..2] + QuoteText(s[2..], q));
    } else {
      QuoteLoopIsText(text + [s[0]], s[1..], q);
      assert text + [s[0]] + QuoteText(s[1..], q) == text + ([s[0]] + QuoteText(s[1..], q));
    }
  }

  /** The browser's loop over a quoted section, which collects its text. */
  method ReadQuote(sql: string, from: nat, quote: char) returns (i: nat, text: string)
    requires from <= |sql|
    ensures i == from + QuoteLen(sql[from..], quote)
    ensures text == [quote] + QuoteText(sql[from..], quote)
  {
    i := from;
    text := [quote];
    ghost var rest := sql[from..];
    ghost var end, whole := from + QuoteLen(rest, quote), QuoteLoop(text, rest, quote);
    QuoteLoopIsText(text, rest, quote);
    while i < |sql|
      invariant from <= i <= |sql| && rest == sql[i..]
      invariant end == i + QuoteLen(rest, quote)
      invariant whole == QuoteLoop(text, rest, quote)
    {
      if sql[i] == quote {
        if i + 1 < |sql| && sql[i + 1] == quote {
          SuffixOf(sql, rest, i, 2);
          rest := rest[2..];
          text := text + [quote] + [quote];
          i := i + 2;
          continue;
        }
        text := text + [quote];
        i := i + 1;
        return;
      }
      if sql[i] == '\\' && i + 1 < |sql| {
        SuffixOf(sql, rest, i, 2);
        rest := rest[2..];
        text := text + sql[i..i + 2];
        i := i + 2;
        continue;
      }
      SuffixOf(sql, rest, i, 1);
      rest := rest[1..];
      text := text + [sql[i]];
      i := i + 1;
    }
  }

  /** The loop that skips a line comment. */
  method SkipLine(sql: string, from: nat) returns (i: nat)
    requires from <= |sql|
    ensures i == from + LineLen(sql[from..])
  {
    i := from;
    while i < |sql| && sql[i] != '\n'
      invariant from <= i <= |sql|
      invariant LineLen(sql[from..]) == i - from + LineLen(sql[i..])
    {
      assert sql[i..][1..] == sql[i + 1..];
      i := i + 1;
    }
  }

  /** The loop that skips a block comment. */
  method SkipBlock(sql: string, from: nat) returns (i: nat)
    requires from <= |sql|
    ensures i == from + BlockLen(sql[from..])
  {
    i := from;
    while i + 1 < |sql| && !(sql[i] == '*' && sql[i + 1] == '/')
      invariant from <= i <= |sql|
      invariant BlockLen(sql[from..]) == i - from + BlockLen(sql[i..])
    {
      assert sql[i..][1..] == sql[i + 1..];
      i := i + 1;
    }
    if i + 1 < |sql| {
      i := i + 2;
    }
  }

  /** The server's loop over a quoted section. */
  method SkipQuote(sql: string, from: nat, quote: char) returns (i: nat)
    requires from <= |sql|
    ensures i == from + QuoteLen(sql[from..], quote)
  {
    i := from;
    while i < |sql|
      invariant from <= i <= |sql|
      invariant QuoteLen(sql[from..], quote) == i - from + QuoteLen(sql[i..], quote)
    {
      if sql[i] == quote {
        if i + 1 < |sql| && sql[i + 1] == quote {
          assert sql[i..][2..] == sql[i + 2..];
          i := i + 2;
          continue;
        }
        i := i + 1;
        return;
      }
      if sql[i] == '\\' && i + 1 < |sql| {
        assert sql[i..][2..] == sql[i + 2..];
        i := i + 2;
      } else {
        assert sql[i..][1..] == sql[i + 1..];
        i := i + 1;
      }
    }
  }

  // ---------------------------------------------------------------- lockstep

  /** The tokens left when the quoted ones are removed. */
  function Bare(ts: seq<Token>): seq<Token> {
    if ts == [] then []
    else (if ts[0].text != "" && IsQuote(ts[0].text[0]) then [] else [ts[0]]) + Bare(ts[1..])
  }

  /** White space for the browser that is text for the server. */
  predicate Disputed(c: char) {
    JsSpace(c) && !GoSpace(c)
  }

  predicate Undisputed(s: string) {
    forall i :: 0 <= i < |s| ==> !Disputed(s[i])
  }

  predicate UndisputedTokens(ts: seq<Token>) {
    forall k :: 0 <= k < |ts| ==> Undisputed(ts[k].text)
  }

  lemma {:induction false} RunsAgree(s: string)
    requires Undisputed(s[..GoRun(s)])
    ensures JsRun(s) == GoRun(s)
  {
    if GoRun(s) > 0 {
      assert s[..GoRun(s)][0] == s[0];
      assert s[1..][..GoRun(s[1..])] == s[..GoRun(s)][1..];
      RunsAgree(s[1..]);
    }
  }

  lemma {:induction false} JsRunUndisputed(s: string)
    ensures Undisputed(s[..JsRun(s)])
    ensures JsRun(s) > 0 ==> !IsQuote(s[0])
  {
    if JsRun(s) > 0 {
      JsRunUndisputed(s[1..]);
      assert s[..JsRun(s)] == [s[0]] + s[1..][..JsRun(s[1..])];
    }
  }

  lemma BareCons(t: Token, ts: seq<Token>)
    ensures Bare([t] + ts) == (if t.text != "" && IsQuote(t.text[0]) then [] else [t]) + Bare(ts)
  {
    assert ([t] + ts)[1..] == ts;
  }

  /** The browser's plain tokens never contain white space in its own sense. */
  lemma {:induction false} BareUndisputed(s: string, depth: nat)
    ensures UndisputedTokens(Bare(JsTokens(s, depth)))
    decreases |s|
  {
    if s != "" {
      match JsScan(s)
      case Skip(n) => BareUndisputed(s[n..], depth);
      case Open => BareUndisputed(s[1..], depth + 1);
      case Close => BareUndisputed(s[1..], Closed(depth));
      case Quoted(n) =>
        BareUndisputed(s[n..], depth);
        BareCons(Token(QuotedText(s), depth), JsTokens(s[n..], depth));
      case Plain(n) =>
        BareUndisputed(s[n..], depth);
        JsRunUndisputed(s);
        BareCons(Token(s[..n], depth), JsTokens(s[n..], depth));
    }
  }

  /** The scanners take the same step when the server's next token is undisputed. */
  lemma SameScan(s: string)
    requires s != ""
    requires GoScan(s).Plain? ==> Undisputed(s[..GoScan(s).n])
    ensures JsScan(s) == GoScan(s)
    ensures GoScan(s).Plain? ==> !IsQuote(s[0])
    ensures GoScan(s).Quoted? ==> IsQuote(s[0])
  {
    if GoRun(s) > 0 && GoScan(s).Plain? {
      assert s[..GoRun(s)][0] == s[0];
      RunsAgree(s);
    }
  }

  lemma {:induction false} Lockstep(s: string, depth: nat)
    requires UndisputedTokens(GoTokens(s, depth))
    ensures Bare(JsTokens(s, depth)) == GoTokens(s, depth)
    decreases |s|
  {
    if s != "" {
      var ts := GoTokens(s, depth);
      if GoScan(s).Plain? {
        assert ts[0].text == s[..GoScan(s).n];
        assert ts[1..] == GoTokens(s[GoScan(s).n..], depth);
      }
      SameScan(s);
      match GoScan(s)
      case Skip(n) => Lockstep(s[n..], depth);
      case Open => Lockstep(s[1..], depth + 1);
      case Close => Lockstep(s[1..], Closed(depth));
      case Quoted(n) =>
        Lockstep(s[n..], depth);
        BareCons(Token(QuotedText(s), depth), JsTokens(s[n..], depth));
      case Plain(n) =>
        Lockstep(s[n..], depth);
        BareCons(Token(s[..n], depth), JsTokens(s[n..], depth));
    }
  }

  /** Scanning the same characters, the two lists differ exactly if a token holds a character
      that only the browser takes for white space: unterminated comments and quotes, doubled
      quotes, backslashes and unbalanced parentheses are treated alike. */
  lemma SameCharacters(s: string)
    ensures Bare(JsTokens(s, 0)) == GoTokens(s, 0) <==> UndisputedTokens(GoTokens(s, 0))
  {
    BareUndisputed(s, 0);
    if UndisputedTokens(GoTokens(s, 0)) {
      Lockstep(s, 0);
    }
  }

  lemma {:induction false} TokensUndisputed(s: string, depth: nat)
    requires Undisputed(s)
    ensures UndisputedTokens(GoTokens(s, depth))
    decreases |s|
  {
    if s != "" {
      match GoScan(s)
      case Skip(n) => TokensUndisputed(s[n..], depth);
      case Quoted(n) => TokensUndisputed(s[n..], depth);
      case Open => TokensUndisputed(s[1..], depth + 1);
      case Close => TokensUndisputed(s[1..], Closed(depth));
      case Plain(n) => TokensUndisputed(s[n..], depth);
    }
  }

  // ---------------------------------------------------------------- UTF-8

  predicate IsAscii(c: char) {
    c < '\U{80}'
  }

  /** A byte of a character that is not ASCII. */
  predicate IsHigh(b: char) {
    '\U{80}' <= b <= '\U{FF}'
  }

  /** A byte that is not the first of its character. */
  predicate Continues(b: char) {
    '\U{80}' <= b <= '\U{BF}'
  }

  /** A byte by its number. */
  function Byte(n: nat): (b: char)
    requires n < 0x100
    ensures b as int == n
  {
    n as char
  }

  function Utf8Char(c: char): (bytes: string)
    ensures 1 <= |bytes| <= 4
    ensures IsAscii(c) ==> bytes == [c]
    ensures !IsAscii(c) ==> |bytes| > 1 && forall i :: 0 <= i < |bytes| ==> IsHigh(bytes[i])
    ensures !Continues(bytes[0]) && forall i :: 1 <= i < |bytes| ==> Continues(bytes[i])
  {
    var n := c as int;
    if n < 0x80 then [c]
    else if n < 0x800 then [Byte(0xC0 + n / 0x40), Byte(0x80 + n % 0x40)]
    else if n < 0x10000 then [Byte(0xE0 + n / 0x40 / 0x40), Byte(0x80 + n / 0x40 % 0x40), Byte(0x80 + n % 0x40)]
    else [Byte(0xF0 + n / 0x40 / 0x40 / 0x40), Byte(0x80 + n / 0x40 / 0x40 % 0x40), Byte(0x80 + n / 0x40 % 0x40),
          Byte(0x80 + n % 0x40)]
  }

  function Utf8(s: string): (bytes: string)
    ensures bytes == "" <==> s == ""
  {
    if s == "" then "" else Utf8Char(s[0]) + Utf8(s[1..])
  }

  function Utf8Tokens(ts: seq<Token>): seq<Token> {
    if ts == [] then [] else [Token(Utf8(ts[0].text), ts[0].depth)] + Utf8Tokens(ts[1..])
  }

  lemma {:induction false} Utf8Append(a: string, b: string)
    ensures Utf8(a + b) == Utf8(a) + Utf8(b)
  {
    if a == "" {
      assert a + b == b;
    } else {
      assert (a + b)[1..] == a[1..] + b;
      Utf8Append(a[1..], b);
      assert Utf8Char(a[0]) + (Utf8(a[1..]) + Utf8(b)) == (Utf8Char(a[0]) + Utf8(a[1..])) + Utf8(b);
    }
  }

  /** A text is cut at a character. */
  lemma Utf8Cut(s: string, n: nat)
    requires n <= |s|
    ensures Utf8(s) == Utf8(s[..n]) + Utf8(s[n..])
    ensures Utf8(s)[..|Utf8(s[..n])|] == Utf8(s[..n]) && Utf8(s)[|Utf8(s[..n])|..] == Utf8(s[n..])
  {
    assert s == s[..n] + s[n..];
    Utf8Append(s[..n], s[n..]);
  }

  lemma {:induction false} Utf8Ascii(s: string)
    requires forall i :: 0 <= i < |s| ==> IsAscii(s[i])
    ensures Utf8(s) == s
  {
    if s != "" {
      Utf8Ascii(s[1..]);
    }
  }

  /** The number of a character from its bytes. */
  lemma Utf8Number(c: char)
    ensures var b, n := Utf8Char(c), c as int;
            && (|b| == 1 ==> n == b[0] as int && n < 0x80)
            && (|b| == 2 ==> n == (b[0] as int - 0xC0) * 0x40 + (b[1] as int - 0x80) && 0xC0 <= b[0] as int < 0xE0)
            && (|b| == 3 ==> n == (b[0] as int - 0xE0) * 0x1000 + (b[1] as int - 0x80) * 0x40 + (b[2] as int - 0x80)
                             && 0xE0 <= b[0] as int < 0xF0)
            && (|b| == 4 ==> n == (b[0] as int - 0xF0) * 0x40000 + (b[1] as int - 0x80) * 0x1000
                                  + (b[2] as int - 0x80) * 0x40 + (b[3] as int - 0x80) && 0xF0 <= b[0] as int)
  {
  }

  /** No character's bytes begin another's. */
  lemma Utf8CharUnique(c: char, a: string, d: char, b: string)
    requires Utf8Char(c) + a == Utf8Char(d) + b
    ensures c == d && a == b
  {
    var x, y := Utf8Char(c), Utf8Char(d);
    Utf8Number(c);
    Utf8Number(d);
    assert (x + a)[0] == x[0] && (y + b)[0] == y[0];
    assert |x| == |y|;
    assert (x + a)[..|x|] == x && (y + b)[..|y|] == y;
    assert (x + a)[|x|..] == a && (y + b)[|y|..] == b;
  }

  lemma {:induction false} Utf8Unique(a: string, b: string)
    requires Utf8(a) == Utf8(b)
    ensures a == b
  {
    if a != "" {
      Utf8CharUnique(a[0], Utf8(a[1..]), b[0], Utf8(b[1..]));
      Utf8Unique(a[1..], b[1..]);
      assert a == [a[0]] + a[1..] && b == [b[0]] + b[1..];
    }
  }

  lemma {:induction false} Utf8TokensUnique(a: seq<Token>, b: seq<Token>)
    requires Utf8Tokens(a) == Utf8Tokens(b)
    ensures a == b
  {
    if a != [] && b != [] {
      assert Utf8Tokens(a)[0] == Utf8Tokens(b)[0] && Utf8Tokens(a)[1..] == Utf8Tokens(b)[1..];
      Utf8Unique(a[0].text, b[0].text);
      Utf8TokensUnique(a[1..], b[1..]);
      assert a == [a[0]] + a[1..] && b == [b[0]] + b[1..];
    }
  }

  // ---------------------------------------------------------------- scanning bytes

  predicate AllHigh(x: string) {
    forall i :: 0 <= i < |x| ==> IsHigh(x[i])
  }

  /** The bytes of a character that is not ASCII are passed one by one. */
  lemma {:induction false} HighPassed(x: string, rest: string, q: char)
    requires AllHigh(x) && IsAscii(q)
    ensures LineLen(x + rest) == |x| + LineLen(rest)
    ensures GoRun(x + rest) == |x| + GoRun(rest)
    ensures QuoteLen(x + rest, q) == |x| + QuoteLen(rest, q)
    ensures rest != "" ==> BlockLen(x + rest) == |x| + BlockLen(rest)
  {
    if x == "" {
      assert x + rest == rest;
    } else {
      assert (x + rest)[0] == x[0] && (x + rest)[1..] == x[1..] + rest;
      HighPassed(x[1..], rest, q);
    }
  }

  /** `n` characters take this many bytes. */
  function Size(s: string, n: nat): nat
    requires n <= |s|
  {
    |Utf8(s[..n])|
  }

  lemma SizeCons(s: string, n: nat)
    requires 0 < n <= |s|
    ensures Size(s, n) == |Utf8Char(s[0])| + Size(s[1..], n - 1)
  {
    assert s[..n][1..] == s[1..][..n - 1] && s[..n][0] == s[0];
  }

  lemma SizeTwo(s: string, n: nat)
    requires 2 <= n <= |s| && IsAscii(s[0])
    ensures Size(s, n) == 1 + |Utf8Char(s[1])| + Size(s[2..], n - 2)
    ensures Utf8(s) == [s[0]] + (Utf8Char(s[1]) + Utf8(s[2..]))
  {
    SizeCons(s, n);
    SizeCons(s[1..], n - 1);
    assert s[1..][1..] == s[2..];
  }

  /** The first byte of what follows is its first character when that is ASCII. */
  lemma FirstByte(s: string)
    requires s != ""
    ensures Utf8(s) != "" && (IsAscii(s[0]) ==> Utf8(s)[0] == s[0]) && (!IsAscii(s[0]) ==> IsHigh(Utf8(s)[0]))
  {
  }

  lemma {:induction false} LineBytes(s: string)
    ensures LineLen(Utf8(s)) == Size(s, LineLen(s))
  {
    if s != "" && s[0] != '\n' {
      LineBytes(s[1..]);
      SizeCons(s, LineLen(s));
      if IsAscii(s[0]) {
        assert Utf8(s)[1..] == Utf8(s[1..]);
      } else {
        HighPassed(Utf8Char(s[0]), Utf8(s[1..]), ' ');
      }
    }
  }

  lemma {:induction false} RunBytes(s: string)
    ensures GoRun(Utf8(s)) == Size(s, GoRun(s))
  {
    if GoRun(s) > 0 {
      RunBytes(s[1..]);
      SizeCons(s, GoRun(s));
      if IsAscii(s[0]) {
        assert Utf8(s)[1..] == Utf8(s[1..]);
      } else {
        HighPassed(Utf8Char(s[0]), Utf8(s[1..]), ' ');
      }
    }
  }

  lemma {:induction false} QuoteBytes(s: string, q: char)
    requires IsQuote(q)
    ensures QuoteLen(Utf8(s), q) == Size(s, QuoteLen(s, q))
    decreases |s|
  {
    if s == "" {
    } else if IsPair(s, q) {
      PairBytes(s, q);
    } else if s[0] == q {
      QuoteEnd(s, q);
    } else {
      QuoteBytes(s[1..], q);
      SizeCons(s, QuoteLen(s, q));
      if IsAscii(s[0]) {
        assert Utf8(s)[1..] == Utf8(s[1..]);
      } else {
        HighPassed(Utf8Char(s[0]), Utf8(s[1..]), q);
      }
    }
  }

  lemma QuoteEnd(s: string, q: char)
    requires IsQuote(q) && s != "" && s[0] == q && (|s| == 1 || s[1] != q)
    ensures QuoteLen(Utf8(s), q) == Size(s, QuoteLen(s, q))
  {
    SizeCons(s, 1);
    assert s[1..][..0] == "" && Utf8(s) == [q] + Utf8(s[1..]);
    if |s| > 1 {
      FirstByte(s[1..]);
    }
  }

  /** A doubled quote, or a backslash and what it guards. */
  predicate IsPair(s: string, q: char) {
    |s| > 1 && ((s[0] == q && s[1] == q) || (s[0] == '\\' && s[0] != q))
  }

  lemma PairPassed(s: string, q: char)
    requires IsPair(s, q)
    ensures QuoteLen(s, q) == 2 + QuoteLen(s[2..], q)
  {
  }

  /** The second byte of a pair and what follows it. */
  lemma PairSplit(s: string, q: char)
    requires IsPair(s, q) && IsAscii(q) && IsAscii(s[0])
    ensures IsPair(Utf8(s), q)
    ensures Utf8(s)[2..] == Utf8Char(s[1])[1..] + Utf8(s[2..])
  {
    SizeTwo(s, 2);
    var rest, second := Utf8(s[2..]), Utf8Char(s[1]);
    assert Utf8(s) == [s[0]] + (second + rest);
    assert Utf8(s)[1] == second[0];
  }

  lemma {:induction false} PairBytes(s: string, q: char)
    requires IsQuote(q) && IsPair(s, q)
    ensures QuoteLen(Utf8(s), q) == Size(s, QuoteLen(s, q))
    decreases |s|, 0
  {
    PairPassed(s, q);
    QuoteBytes(s[2..], q);
    SizeTwo(s, QuoteLen(s, q));
    PairSplit(s, q);
    PairPassed(Utf8(s), q);
    var rest, second := Utf8(s[2..]), Utf8Char(s[1]);
    if IsAscii(s[1]) {
      assert second[1..] + rest == rest;
    } else {
      HighPassed(second[1..], rest, q);
    }
  }

  /** No end of the comment in the text after its opening. */
  predicate IsOpen(s: string) {
    |s| < 2 || (!(s[0] == '*' && s[1] == '/') && IsOpen(s[1..]))
  }

  /** A comment that ends is passed alike, and so is an open one whose last character is ASCII. */
  lemma {:induction false} BlockBytes(s: string)
    requires s == "" || !IsOpen(s) || IsAscii(s[|s| - 1])
    ensures BlockLen(Utf8(s)) == Size(s, BlockLen(s))
  {
    if s == "" {
    } else if |s| == 1 {
      assert s[1..] == "" && Utf8(s) == [s[0]];
    } else if s[0] == '*' && s[1] == '/' {
      SizeTwo(s, 2);
      assert s[2..][..0] == "";
    } else {
      BlockBytes(s[1..]);
      SizeCons(s, BlockLen(s));
      FirstByte(s[1..]);
      if IsAscii(s[0]) {
        assert Utf8(s)[1..] == Utf8(s[1..]);
      } else {
        HighPassed(Utf8Char(s[0]), Utf8(s[1..]), ' ');
      }
    }
  }

  /** An open comment is left one byte before the end. */
  lemma {:induction false} OpenBytes(s: string)
    requires s != "" && IsOpen(s)
    ensures BlockLen(Utf8(s)) == |Utf8(s)| - 1
  {
    if |s| == 1 {
      assert s[1..] == "" && Utf8(s) == Utf8Char(s[0]);
      HighAlone(Utf8Char(s[0]));
    } else {
      OpenBytes(s[1..]);
      FirstByte(s[1..]);
      if IsAscii(s[0]) {
        assert Utf8(s)[1..] == Utf8(s[1..]);
      } else {
        HighPassed(Utf8Char(s[0]), Utf8(s[1..]), ' ');
      }
    }
  }

  lemma {:induction false} HighAlone(x: string)
    requires x != "" && (|x| == 1 || AllHigh(x))
    ensures BlockLen(x) == |x| - 1
  {
    if |x| > 1 {
      HighAlone(x[1..]);
    }
  }

  /** A step of the server in bytes. */
  function InBytes(s: string, scan: Scan): Scan
    requires InBounds(scan, s)
  {
    match scan
    case Skip(n) => Skip(Size(s, n))
    case Quoted(n) => Quoted(Size(s, n))
    case Plain(n) => Plain(Size(s, n))
    case Open => Open
    case Close => Close
  }

  /** A block comment starts here and does not end, and the text ends in a character that is
      not ASCII. */
  predicate OpenCommentAt(s: string) {
    Starts(s, '/', '*') && |s| > 2 && IsOpen(s[2..]) && !IsAscii(s[|s| - 1])
  }

  lemma FirstBytes(s: string)
    requires s != ""
    ensures |Utf8(s)| >= 1
    ensures IsAscii(s[0]) ==> Utf8(s)[0] == s[0] && Utf8(s)[1..] == Utf8(s[1..]) && Size(s, 1) == 1
    ensures !IsAscii(s[0]) ==> IsHigh(Utf8(s)[0])
  {
    assert s[..1][1..] == "";
  }

  /** Both see the same opening of two ASCII characters. */
  lemma SameOpening(s: string, a: char, b: char)
    requires IsAscii(a) && IsAscii(b)
    ensures Starts(s, a, b) <==> Starts(Utf8(s), a, b)
    ensures Starts(s, a, b) ==> Utf8(s)[2..] == Utf8(s[2..])
  {
    if s != "" {
      FirstBytes(s);
      if IsAscii(s[0]) && s[1..] != "" {
        FirstBytes(s[1..]);
      }
    }
  }

  lemma SizeFromTwo(s: string, n: nat)
    requires 2 + n <= |s| && IsAscii(s[0]) && IsAscii(s[1])
    ensures Size(s, 2 + n) == 2 + Size(s[2..], n)
  {
    SizeTwo(s, 2 + n);
  }

  lemma CommentBytes(s: string)
    requires Starts(s, '/', '*') && !OpenCommentAt(s)
    ensures GoScan(Utf8(s)) == InBytes(s, GoScan(s))
  {
    SameOpening(s, '/', '*');
    FirstBytes(s);
    SizeFromTwo(s, BlockLen(s[2..]));
    if s[2..] != "" {
      assert s[2..][|s[2..]| - 1] == s[|s| - 1];
    }
    BlockBytes(s[2..]);
    SameOpening(s, '-', '-');
  }

  lemma DashBytes(s: string)
    requires Starts(s, '-', '-')
    ensures GoScan(Utf8(s)) == InBytes(s, GoScan(s))
  {
    SameOpening(s, '-', '-');
    FirstBytes(s);
    SizeFromTwo(s, LineLen(s[2..]));
    LineBytes(s[2..]);
  }

  lemma QuoteScan(s: string)
    requires s != "" && IsQuote(s[0])
    ensures GoScan(s) == Quoted(1 + QuoteLen(s[1..], s[0]))
  {
  }

  lemma QuotedBytes(s: string)
    requires s != "" && IsQuote(s[0])
    ensures Utf8(s) != "" && GoScan(Utf8(s)) == InBytes(s, GoScan(s))
  {
    QuoteScan(s);
    FirstBytes(s);
    QuoteScan(Utf8(s));
    QuoteBytes(s[1..], s[0]);
    SizeCons(s, 1 + QuoteLen(s[1..], s[0]));
  }

  /** Unless it meets such a comment the server takes the same step on the bytes as it would on
      the characters. */
  lemma ScanBytes(s: string)
    requires s != "" && !OpenCommentAt(s)
    ensures Utf8(s) != "" && GoScan(Utf8(s)) == InBytes(s, GoScan(s))
  {
    if Starts(s, '/', '*') {
      CommentBytes(s);
    } else if Starts(s, '-', '-') {
      DashBytes(s);
    } else if IsQuote(s[0]) {
      QuotedBytes(s);
    } else {
      SameOpening(s, '/', '*');
      SameOpening(s, '-', '-');
      FirstBytes(s);
      RunBytes(s);
    }
  }

  /** The scan of the text meets such a comment. */
  predicate EndsInComment(s: string)
    decreases |s|
  {
    s != "" && (OpenCommentAt(s) || EndsInComment(s[Advance(0, GoScan(s))..]))
  }

  /** A step of the server and the rest of the text. */
  lemma GoStep(s: string, depth: nat)
    requires s != ""
    ensures var scan := GoScan(s);
            GoTokens(s, depth) == (if scan.Plain? then [Token(s[..scan.n], depth)] else [])
                                  + GoTokens(s[Advance(0, scan)..], DepthAfter(depth, scan))
  {
  }

  /** The same step on the bytes. */
  lemma BytesStep(s: string, depth: nat)
    requires s != "" && !OpenCommentAt(s)
    ensures var scan := GoScan(s);
            var n := Advance(0, scan);
            GoTokens(Utf8(s), depth) == (if scan.Plain? then [Token(Utf8(s[..n]), depth)] else [])
                                        + GoTokens(Utf8(s[n..]), DepthAfter(depth, scan))
  {
    ScanBytes(s);
    FirstBytes(s);
    Utf8Cut(s, Advance(0, GoScan(s)));
    GoStep(Utf8(s), depth);
  }

  lemma Utf8TokensAfter(ts: seq<Token>, rest: seq<Token>)
    requires |ts| <= 1
    ensures Utf8Tokens(ts + rest) == (if ts == [] then [] else [Token(Utf8(ts[0].text), ts[0].depth)]) + Utf8Tokens(rest)
  {
    if ts == [] {
      assert ts + rest == rest;
    } else {
      assert (ts + rest)[1..] == rest;
    }
  }

  lemma {:induction false} GoBytes(s: string, depth: nat)
    requires !EndsInComment(s)
    ensures GoTokens(Utf8(s), depth) == Utf8Tokens(GoTokens(s, depth))
    decreases |s|
  {
    if s != "" {
      var scan := GoScan(s);
      var n := Advance(0, scan);
      BytesStep(s, depth);
      GoStep(s, depth);
      GoBytes(s[n..], DepthAfter(depth, scan));
      Utf8TokensAfter(if scan.Plain? then [Token(s[..n], depth)] else [], GoTokens(s[n..], DepthAfter(depth, scan)));
    }
  }

  /** The server's list for such a text ends in a token of half a character. */
  predicate EndsInHalf(ts: seq<Token>) {
    ts != [] && |ts[|ts| - 1].text| == 1 && Continues(ts[|ts| - 1].text[0])
  }

  lemma LastByte(s: string)
    requires s != "" && !IsAscii(s[|s| - 1])
    ensures Continues(Utf8(s)[|Utf8(s)| - 1])
  {
    Utf8Cut(s, |s| - 1);
    assert s[|s| - 1..][1..] == "";
  }

  /** One character on its own is a token of both scanners. */
  lemma LoneCharacter(c: char, depth: nat)
    requires !JsSpace(c) && !Delimits(c)
    ensures GoTokens([c], depth) == [Token([c], depth)] && JsTokens([c], depth) == [Token([c], depth)]
  {
    assert [c][1..] == "";
    assert GoRun([c]) == 1 && JsRun([c]) == 1 && [c][..1] == [c];
  }

  lemma HalfAfter(ts: seq<Token>, rest: seq<Token>)
    requires EndsInHalf(rest)
    ensures EndsInHalf(ts + rest)
  {
  }

  lemma OpenCommentScan(s: string)
    requires OpenCommentAt(s)
    ensures Utf8(s) != "" && GoScan(Utf8(s)) == Skip(|Utf8(s)| - 1)
  {
    SameOpening(s, '/', '*');
    SameOpening(s, '-', '-');
    FirstBytes(s);
    OpenBytes(s[2..]);
  }

  lemma HighLone(b: char, depth: nat)
    requires Continues(b)
    ensures GoTokens([b], depth) == [Token([b], depth)]
  {
    assert [b][1..] == "";
    assert GoRun([b]) == 1 && [b][..1] == [b];
  }

  lemma OpenCommentHalf(s: string, depth: nat)
    requires OpenCommentAt(s)
    ensures EndsInHalf(GoTokens(Utf8(s), depth))
  {
    var bytes := Utf8(s);
    OpenCommentScan(s);
    GoStep(bytes, depth);
    LastByte(s);
    var last := bytes[|bytes| - 1];
    assert bytes[|bytes| - 1..] == [last];
    HighLone(last, depth);
  }

  lemma {:induction false} HalfAtEnd(s: string, depth: nat)
    requires EndsInComment(s)
    ensures EndsInHalf(GoTokens(Utf8(s), depth))
    decreases |s|
  {
    if OpenCommentAt(s) {
      OpenCommentHalf(s, depth);
    } else {
      var scan := GoScan(s);
      var n := Advance(0, scan);
      BytesStep(s, depth);
      HalfAtEnd(s[n..], DepthAfter(depth, scan));
      HalfAfter(if scan.Plain? then [Token(Utf8(s[..n]), depth)] else [], GoTokens(Utf8(s[n..]), DepthAfter(depth, scan)));
    }
  }

  lemma {:induction false} NoHalves(ts: seq<Token>)
    ensures !EndsInHalf(Utf8Tokens(ts))
  {
    if ts != [] {
      NoHalves(ts[1..]);
      var rest := Utf8Tokens(ts[1..]);
      assert rest != [] ==> Utf8Tokens(ts)[|rest|] == rest[|rest| - 1];
    }
  }

  // ---------------------------------------------------------------- main results

  /** The browser's tokens without the quoted ones are the server's, texts and depths, if and
      only if no token, as the server splits the characters, holds white space that only the
      browser knows, and the text does not end inside an open block comment with a character
      that is not ASCII: there the server scans half of that character. */
  lemma ScannersAgreeExactly(s: string)
    ensures Utf8Tokens(Bare(JsTokens(s, 0))) == GoTokens(Utf8(s), 0)
       <==> UndisputedTokens(GoTokens(s, 0)) && !EndsInComment(s)
  {
    SameCharacters(s);
    if EndsInComment(s) {
      HalfAtEnd(s, 0);
      NoHalves(Bare(JsTokens(s, 0)));
    } else {
      GoBytes(s, 0);
      if Utf8Tokens(Bare(JsTokens(s, 0))) == Utf8Tokens(GoTokens(s, 0)) {
        Utf8TokensUnique(Bare(JsTokens(s, 0)), GoTokens(s, 0));
      }
    }
  }

  lemma {:induction false} AsciiCloses(s: string)
    requires s == "" || IsAscii(s[|s| - 1])
    ensures !EndsInComment(s)
    decreases |s|
  {
    if s != "" {
      AsciiCloses(s[Advance(0, GoScan(s))..]);
    }
  }

  /** In particular for every text that ends in an ASCII character and whose only white space is
      space, tab, CR and LF. */
  lemma ScannersAgree(s: string)
    requires Undisputed(s) && (s == "" || IsAscii(s[|s| - 1]))
    ensures Utf8Tokens(Bare(JsTokens(s, 0))) == GoTokens(Utf8(s), 0)
  {
    TokensUndisputed(s, 0);
    AsciiCloses(s);
    ScannersAgreeExactly(s);
  }

  /** On ASCII texts without vertical tab and form feed the lists are the same as they stand. */
  lemma AsciiScannersAgree(s: string)
    requires forall i :: 0 <= i < |s| ==> IsAscii(s[i]) && s[i] != '\U{0B}' && s[i] != '\U{0C}'
    ensures Utf8(s) == s && Bare(JsTokens(s, 0)) == GoTokens(s, 0)
  {
    Utf8Ascii(s);
    TokensUndisputed(s, 0);
    SameCharacters(s);
  }

  /** A form feed inside a word splits it in the browser only. */
  lemma FormFeedSplits()
    ensures GoTokens(Utf8("a\U{0C}b"), 0) == [Token("a\U{0C}b", 0)]
    ensures Utf8Tokens(Bare(JsTokens("a\U{0C}b", 0))) != GoTokens(Utf8("a\U{0C}b"), 0)
  {
    var s := "a\U{0C}b";
    Utf8Ascii(s);
    assert GoRun(s[3..]) == 0;
    assert GoRun(s[2..]) == 1 && GoRun(s[1..]) == 2 && GoRun(s) == 3;
    assert s[..3] == s && GoTokens(s[3..], 0) == [];
    assert Disputed(GoTokens(s, 0)[0].text[1]);
    ScannersAgreeExactly(s);
  }

  /** An open block comment before one letter with an accent: the browser scans the letter, the
      server its second byte. */
  lemma OpenCommentDiffers()
    ensures var s := "/*\U{E9}";
            && Undisputed(s)
            && GoTokens(Utf8(s), 0) == [Token("\U{A9}", 0)]
            && Bare(JsTokens(s, 0)) == [Token("\U{E9}", 0)]
            && Utf8Tokens(Bare(JsTokens(s, 0))) != GoTokens(Utf8(s), 0)
  {
    OpenBeforeLetter("/*", '\U{E9}', '\U{C3}', '\U{A9}');
  }

  lemma OpenBeforeLetter(opening: string, c: char, a: char, b: char)
    requires opening == "/*" && !IsAscii(c) && !JsSpace(c) && Utf8Char(c) == [a, b]
    ensures var s := opening + [c];
            && GoTokens(Utf8(s), 0) == [Token([b], 0)] && Bare(JsTokens(s, 0)) == [Token([c], 0)]
            && Utf8Tokens(Bare(JsTokens(s, 0))) != GoTokens(Utf8(s), 0)
  {
    var s := opening + [c];
    assert s[2..] == [c] && OpenCommentAt(s);
    ScannersAgreeExactly(s);
    Utf8Append(opening, [c]);
    Utf8Ascii(opening);
    assert [c][1..] == "" && Utf8(s) == opening + [a, b];
    OpenCommentScan(s);
    GoStep(Utf8(s), 0);
    assert Utf8(s)[3..] == [b];
    HighLone(b, 0);
    LoneCharacter(c, 0);
    assert BlockLen(s[2..]) == 0 && JsScan(s) == Skip(2);
    assert JsTokens(s, 0) == JsTokens([c], 0);
    BareCons(Token([c], 0), []);
    assert [Token([c], 0)] + [] == [Token([c], 0)];
  }

  /** A quoted token is exactly the quoted slice of the text. */
  lemma {:induction false} QuoteTextIsSlice(s: string, q: char)
    ensures QuoteText(s, q) == s[..QuoteLen(s, q)]
  {
    if s == "" {
    } else if s[0] == q {
      if |s| > 1 && s[1] == q {
        QuoteTextIsSlice(s[2..], q);
      }
    } else if s[0] == '\\' && |s| > 1 {
      QuoteTextIsSlice(s[2..], q);
    } else {
      QuoteTextIsSlice(s[1..], q);
    }
  }
}
