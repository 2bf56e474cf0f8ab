/** The name a user types to confirm a DROP: extracted in the browser
    (web/src/features/workspace/ddl.ts) from the statement it generated, and computed again by
    the server's `Classify` (api/internal/query/risk.go). */
module DropTarget {
  import opened Wrappers
  import opened Text
  import opened SqlTokens

  // ---------------------------------------------------------------- the generated statements

  datatype Driver = MySQL | Postgres

  predicate IsIdentStart(c: char) {
    'a' <= c <= 'z' || 'A' <= c <= 'Z' || c == '_'
  }

  /** `isValidSqlIdent`. */
  predicate IsValidSqlIdent(name: string) {
    && name != "" && IsIdentStart(name[0])
    && forall i :: 0 <= i < |name| ==> IsIdentStart(name[i]) || IsDigit(name[i])
  }

  function QuoteMark(driver: Driver): char {
    if driver == Postgres then '"' else '`'
  }

  function QuoteIdent(driver: Driver, name: string): string {
    [QuoteMark(driver)] + Doubled(name, QuoteMark(driver)) + [QuoteMark(driver)]
  }

  function IdentRef(driver: Driver, name: string): string {
    if IsValidSqlIdent(name) then name else QuoteIdent(driver, name)
  }

  function BuildDropDatabase(driver: Driver, name: string): string {
    "DROP DATABASE " + IdentRef(driver, name) + ";"
  }

  function BuildDropTable(driver: Driver, schema: string, name: string): string {
    if driver == Postgres then "DROP TABLE " + IdentRef(driver, schema) + "." + IdentRef(driver, name) + ";"
    else "DROP TABLE " + IdentRef(driver, name) + ";"
  }

  // ---------------------------------------------------------------- the target of a token list

  predicate IsKeyword(upper: string) {
    || upper == "TABLE" || upper == "DATABASE" || upper == "SCHEMA" || upper == "VIEW" || upper == "IF"
    || upper == "EXISTS"
  }

  predicate IsDropWord(upper: string) {
    upper == "DROP" || upper == "TRUNCATE"
  }

  /** The first token at depth 0 that is none of the six words. */
  function FirstTarget(ts: seq<Token>): Option<string> {
    if ts == [] then None
    else if ts[0].depth == 0 && !IsKeyword(Upper(ts[0].text)) then Some(ts[0].text)
    else FirstTarget(ts[1..])
  }

  function TargetOf(ts: seq<Token>): Option<string> {
    if ts == [] || !IsDropWord(Upper(ts[0].text)) then None else FirstTarget(ts[1..])
  }

  // ---------------------------------------------------------------- the server

  datatype Level = Safe | Confirm | TypeTarget
  datatype Risk = Risk(level: Level, kind: string, target: string)

  predicate HasTopLevelWhere(ts: seq<Token>) {
    exists k :: 0 <= k < |ts| && ts[k].depth == 0 && Upper(ts[k].text) == "WHERE"
  }

  /** `Classify`, on the bytes of the statement. An UPDATE or DELETE is safe exactly when a WHERE stands outside every
      parenthesis, quote and comment; a DROP or TRUNCATE carries its target, empty when there
      is none. */
  method Classify(statement: string) returns (risk: Risk)
    ensures var ts := GoTokens(statement, 0);
            var first := if ts == [] then "" else Upper(ts[0].text);
            && (risk.level == Confirm <==> (first == "UPDATE" || first == "DELETE") && !HasTopLevelWhere(ts[1..]))
            && (risk.level == Confirm ==> risk.kind == Lower(first) + "_without_where")
            && (risk.level == TypeTarget <==> IsDropWord(first))
            && (risk.level == TypeTarget ==> risk.kind == Lower(first))
            && (TargetOf(ts) == if risk.target == "" then None else Some(risk.target))
  {
    var ts := Tokenize(statement);
    GoTextsNonEmpty(statement, 0);
    if ts == [] {
      return Risk(Safe, "", "");
    }
    var first := Upper(ts[0].text);
    if first == "UPDATE" || first == "DELETE" {
      var i := 1;
      while i < |ts|
        invariant 1 <= i <= |ts|
        invariant forall k :: 0 <= k < i - 1 ==> !(ts[1..][k].depth == 0 && Upper(ts[1..][k].text) == "WHERE")
      {
        if ts[i].depth == 0 && Upper(ts[i].text) == "WHERE" {
          assert ts[1..][i - 1] == ts[i];
          return Risk(Safe, "", "");
        }
        i := i + 1;
      }
      return Risk(Confirm, Lower(first) + "_without_where", "");
    }
    if IsDropWord(first) {
      var target := "";
      var i := 1;
      while i < |ts|
        invariant 1 <= i <= |ts|
        invariant TargetOf(ts) == FirstTarget(ts[i..])
      {
        assert ts[i..][1..] == ts[i + 1..];
        var upper := Upper(ts[i].text);
        if ts[i].depth == 0 && !IsKeyword(upper) {
          target := ts[i].text;
          break;
        }
        i := i + 1;
      }
      return Risk(TypeTarget, Lower(first), target);
    }
    return Risk(Safe, "", "");
  }

  lemma {:induction false} GoTextsNonEmpty(s: string, depth: nat)
    ensures forall k :: 0 <= k < |GoTokens(s, depth)| ==>
              GoTokens(s, depth)[k].text != "" && !IsQuote(GoTokens(s, depth)[k].text[0])
    decreases |s|
  {
    if s != "" {
      match GoScan(s)
      case Skip(n) => GoTextsNonEmpty(s[n..], depth);
      case Quoted(n) => GoTextsNonEmpty(s[n..], depth);
      case Open => GoTextsNonEmpty(s[1..], depth + 1);
      case Close => GoTextsNonEmpty(s[1..], Closed(depth));
      case Plain(n) => GoTextsNonEmpty(s[n..], depth);
    }
  }

  // ---------------------------------------------------------------- the browser

  /** `replace(/\/\*[\s\S]*?\*\//g, ' ')`: only terminated block comments go. */
  function StripBlocks(s: string): string
    decreases |s|
  {
    if s == "" then ""
    else if Starts(s, '/', '*') && IndexFrom(s, "*/", 2) != -1 then
      " " + StripBlocks(s[IndexFrom(s, "*/", 2) + 2..])
    else [s[0]] + StripBlocks(s[1..])
  }

  predicate EndsJsLine(c: char) {
    c == '\n' || c == '\r' || c == '\U{2028}' || c == '\U{2029}'
  }

  function JsLineLen(s: string): (n: nat)
    ensures n <= |s|
  {
    if s == "" || EndsJsLine(s[0]) then 0 else 1 + JsLineLen(s[1..])
  }

  /** `replace(/--.*$/gm, ' ')`. */
  function StripLines(s: string): string
    decreases |s|
  {
    if s == "" then ""
    else if Starts(s, '-', '-') then " " + StripLines(s[2 + JsLineLen(s[2..])..])
    else [s[0]] + StripLines(s[1..])
  }

  function TrimStart(s: string): string {
    if s != "" && JsSpace(s[0]) then TrimStart(s[1..]) else s
  }

  function TrimEnd(s: string): (r: string)
    ensures r <= s
  {
    if s != "" && JsSpace(s[|s| - 1]) then TrimEnd(s[..|s| - 1]) else s
  }

  function Normalize(sql: string): string {
    TrimEnd(TrimStart(StripLines(StripBlocks(sql))))
  }

  /** `extractDropConfirmationTarget`. */
  method ExtractDropConfirmationTarget(sql: string) returns (target: Option<string>)
    ensures target == TargetOf(JsTokens(Normalize(sql), 0))
  {
    var tokens := TokenizeSql(Normalize(sql));
    if tokens == [] || !IsDropWord(Upper(tokens[0].text)) {
      return None;
    }
    var i := 1;
    while i < |tokens|
      invariant 1 <= i <= |tokens|
      invariant TargetOf(tokens) == FirstTarget(tokens[i..])
    {
      assert tokens[i..][1..] == tokens[i + 1..];
      if tokens[i].depth == 0 && !IsKeyword(Upper(tokens[i].text)) {
        return Some(tokens[i].text);
      }
      i := i + 1;
    }
    return None;
  }

  // ---------------------------------------------------------------- scanning a word

  /** A word both scanners take as one token: no white space, delimiter, dash or slash. */
  predicate IsWord(w: string) {
    w != "" && forall i :: 0 <= i < |w| ==> !JsSpace(w[i]) && !Delimits(w[i]) && w[i] != '-' && w[i] != '/'
  }

  predicate EndsWord(tail: string) {
    tail == "" || GoSpace(tail[0]) || Delimits(tail[0])
  }

  lemma {:induction false} WordRuns(w: string, tail: string)
    requires (w == "" || IsWord(w)) && EndsWord(tail)
    ensures GoRun(w + tail) == |w| && JsRun(w + tail) == |w|
  {
    if w == "" {
      assert w + tail == tail;
    } else {
      assert (w + tail)[1..] == w[1..] + tail;
      WordRuns(w[1..], tail);
    }
  }

  lemma WordToken(w: string, tail: string)
    requires IsWord(w) && EndsWord(tail)
    ensures GoTokens(w + tail, 0) == [Token(w, 0)] + GoTokens(tail, 0)
    ensures JsTokens(w + tail, 0) == [Token(w, 0)] + JsTokens(tail, 0)
  {
    WordRuns(w, tail);
    assert (w + tail)[0] == w[0];
    assert (w + tail)[..|w|] == w && (w + tail)[|w|..] == tail;
  }

  lemma SpaceSkipped(tail: string)
    ensures GoTokens(" " + tail, 0) == GoTokens(tail, 0)
    ensures JsTokens(" " + tail, 0) == JsTokens(tail, 0)
  {
    assert (" " + tail)[1..] == tail;
  }

  lemma SemicolonEnds()
    ensures GoTokens(";", 0) == [] && JsTokens(";", 0) == []
  {
    assert GoRun(";") == 0 && JsRun(";") == 0;
    assert GoTokens(";"[1..], 0) == [] && JsTokens(";"[1..], 0) == [];
  }

  const TABLE := "DROP TABLE "
  const DATABASE := "DROP DATABASE "

  function KindOf(head: string): string {
    if head == TABLE then "TABLE" else "DATABASE"
  }

  function Phrase(verb: string, kind: string, tail: string): string {
    verb + (" " + (kind + (" " + tail)))
  }

  lemma HeadPhrase(head: string, tail: string)
    requires head == TABLE || head == DATABASE
    ensures head + tail == Phrase("DROP", KindOf(head), tail)
  {
    assert TABLE == "DROP" + " " + "TABLE" + " ";
    assert DATABASE == "DROP" + " " + "DATABASE" + " ";
    var kind := KindOf(head);
    assert head == "DROP" + " " + kind + " ";
    assert ("DROP" + " " + kind + " ") + tail == Phrase("DROP", kind, tail);
  }

  lemma PhraseTokens(verb: string, kind: string, tail: string)
    requires IsWord(verb) && IsWord(kind)
    ensures GoTokens(Phrase(verb, kind, tail), 0) == [Token(verb, 0)] + ([Token(kind, 0)] + GoTokens(tail, 0))
    ensures JsTokens(Phrase(verb, kind, tail), 0) == [Token(verb, 0)] + ([Token(kind, 0)] + JsTokens(tail, 0))
  {
    var rest := kind + (" " + tail);
    WordToken(verb, " " + rest);
    SpaceSkipped(rest);
    WordToken(kind, " " + tail);
    SpaceSkipped(tail);
  }

  lemma WordsAreWords()
    ensures IsWord("DROP") && IsWord("TABLE") && IsWord("DATABASE")
    ensures Upper("DROP") == "DROP" && Upper("TABLE") == "TABLE" && Upper("DATABASE") == "DATABASE"
  {
  }

  lemma PhraseTarget(verb: string, kind: string, ts: seq<Token>)
    requires IsDropWord(Upper(verb)) && IsKeyword(Upper(kind))
    ensures TargetOf([Token(verb, 0)] + ([Token(kind, 0)] + ts)) == FirstTarget(ts)
  {
    var tail := [Token(kind, 0)] + ts;
    assert ([Token(verb, 0)] + tail)[1..] == tail;
    assert tail[1..] == ts;
  }

  /** Both scanners see DROP and the kind of object first, so the target is the first one of
      what follows. */
  lemma HeadTarget(head: string, tail: string)
    requires head == TABLE || head == DATABASE
    ensures TargetOf(GoTokens(head + tail, 0)) == FirstTarget(GoTokens(tail, 0))
    ensures TargetOf(JsTokens(head + tail, 0)) == FirstTarget(JsTokens(tail, 0))
  {
    WordsAreWords();
    HeadPhrase(head, tail);
    PhraseTokens("DROP", KindOf(head), tail);
    PhraseTarget("DROP", KindOf(head), GoTokens(tail, 0));
    PhraseTarget("DROP", KindOf(head), JsTokens(tail, 0));
  }

  // ---------------------------------------------------------------- normalisation

  /** Text without dashes and slashes at the front survives the removal of comments. */
  lemma {:induction false} StripBlocksKeeps(a: string, b: string)
    requires forall i :: 0 <= i < |a| ==> a[i] != '/' && a[i] != '-'
    ensures StripBlocks(a + b) == a + StripBlocks(b)
  {
    if a == "" {
      assert a + b == b && a + StripBlocks(b) == StripBlocks(b);
    } else {
      assert (a + b)[1..] == a[1..] + b && (a + b)[0] == a[0];
      StripBlocksKeeps(a[1..], b);
      assert [a[0]] + (a[1..] + StripBlocks(b)) == a + StripBlocks(b);
    }
  }

  lemma {:induction false} StripLinesKeeps(a: string, b: string)
    requires forall i :: 0 <= i < |a| ==> a[i] != '/' && a[i] != '-'
    ensures StripLines(a + b) == a + StripLines(b)
  {
    if a == "" {
      assert a + b == b && a + StripLines(b) == StripLines(b);
    } else {
      assert (a + b)[1..] == a[1..] + b && (a + b)[0] == a[0];
      StripLinesKeeps(a[1..], b);
      assert [a[0]] + (a[1..] + StripLines(b)) == a + StripLines(b);
    }
  }

  lemma {:induction false} TrimEndKeeps(a: string, b: string)
    requires a != "" && !JsSpace(a[|a| - 1])
    ensures TrimEnd(a + b) == a + TrimEnd(b)
    decreases |b|
  {
    if b == "" {
      assert a + b == a;
    } else {
      assert (a + b)[|a + b| - 1] == b[|b| - 1];
      if JsSpace(b[|b| - 1]) {
        assert (a + b)[..|a + b| - 1] == a + b[..|b| - 1];
        TrimEndKeeps(a, b[..|b| - 1]);
      }
    }
  }

  /** A front part that starts and ends with text and has no dash or slash stays in place;
      `rest` is whatever becomes of what follows. */
  lemma NormalizeKeeps(a: string, b: string) returns (rest: string)
    requires a != "" && !JsSpace(a[0]) && !JsSpace(a[|a| - 1])
    requires forall i :: 0 <= i < |a| ==> a[i] != '/' && a[i] != '-'
    ensures Normalize(a + b) == a + rest
    ensures b == "" ==> rest == ""
  {
    StripBlocksKeeps(a, b);
    StripLinesKeeps(a, StripBlocks(b));
    var kept := StripLines(StripBlocks(b));
    assert TrimStart(a + kept) == a + kept;
    TrimEndKeeps(a, kept);
    rest := TrimEnd(kept);
  }

  // ---------------------------------------------------------------- the bytes of a statement

  /** What the server computes for a statement: its scanner runs over the bytes. */
  function ServerTarget(sql: string): Option<string> {
    TargetOf(GoTokens(Utf8(sql), 0))
  }

  /** What the browser extracts, as bytes. */
  function BrowserTarget(sql: string): Option<string> {
    match TargetOf(JsTokens(Normalize(sql), 0))
    case None => None
    case Some(target) => Some(Utf8(target))
  }

  predicate AllAscii(s: string) {
    forall i :: 0 <= i < |s| ==> IsAscii(s[i])
  }

  lemma AsciiBefore(a: string, b: string)
    requires AllAscii(a)
    ensures Utf8(a + b) == a + Utf8(b)
  {
    Utf8Append(a, b);
    Utf8Ascii(a);
  }

  lemma HeadsAreAscii(head: string)
    requires head == TABLE || head == DATABASE
    ensures AllAscii(head)
  {
  }

  // ---------------------------------------------------------------- the results

  /** The part of a generated statement the target is read from. */
  lemma ValidIsWord(name: string)
    requires IsValidSqlIdent(name)
    ensures IsWord(name) && IsWord(name + ".") && AllAscii(name)
    ensures forall other :: IsValidSqlIdent(other) ==> IsWord(name + "." + other)
  {
  }

  lemma FirstTargetWord(w: string, ts: seq<Token>)
    ensures FirstTarget([Token(w, 0)] + ts) == if IsKeyword(Upper(w)) then FirstTarget(ts) else Some(w)
  {
    assert ([Token(w, 0)] + ts)[1..] == ts;
  }

  /** A word, then text both scanners stop at: both see it as the target. */
  lemma WordTarget(head: string, w: string, tail: string)
    requires head == TABLE || head == DATABASE
    requires IsWord(w) && EndsWord(tail)
    ensures TargetOf(GoTokens(head + (w + tail), 0))
         == if IsKeyword(Upper(w)) then FirstTarget(GoTokens(tail, 0)) else Some(w)
    ensures TargetOf(JsTokens(head + (w + tail), 0))
         == if IsKeyword(Upper(w)) then FirstTarget(JsTokens(tail, 0)) else Some(w)
  {
    HeadTarget(head, w + tail);
    WordToken(w, tail);
    FirstTargetWord(w, GoTokens(tail, 0));
    FirstTargetWord(w, JsTokens(tail, 0));
  }

  /** A statement that names one plain word: browser and server agree, on the word itself
      unless it is one of the six skipped words, on no target then. */
  lemma PlainStatement(head: string, w: string)
    requires head == TABLE || head == DATABASE
    requires IsWord(w) && AllAscii(w)
    ensures var sql := head + (w + ";");
            var target := if IsKeyword(Upper(w)) then None else Some(w);
            ServerTarget(sql) == target && BrowserTarget(sql) == target
  {
    WordTarget(head, w, ";");
    SemicolonEnds();
    PlainNormal(head, w);
    HeadsAreAscii(head);
    Utf8Ascii(head + (w + ";"));
    Utf8Ascii(w);
  }

  lemma PlainNormal(head: string, w: string)
    requires head == TABLE || head == DATABASE
    requires IsWord(w)
    ensures Normalize(head + (w + ";")) == head + (w + ";")
  {
    var sql := head + (w + ";");
    var rest := NormalizeKeeps(sql, "");
    assert sql + "" == sql && sql + rest == sql;
  }

  lemma DottedIsNoKeyword(w: string, i: nat)
    requires i < |w| && w[i] == '.'
    ensures !IsKeyword(Upper(w))
  {
    assert Upper(w)[i] == '.';
    assert Upper(w) != "TABLE" && Upper(w) != "DATABASE" && Upper(w) != "SCHEMA";
    assert Upper(w) != "VIEW" && Upper(w) != "IF" && Upper(w) != "EXISTS";
  }

  /** A quoted identifier at the head: the browser's target is the quoted text, the server's
      never begins with a quote. */
  lemma QuotedStatement(head: string, q: char, b: string)
    requires head == TABLE || head == DATABASE
    requires IsQuote(q)
    ensures var sql := head + ([q] + b);
            BrowserTarget(sql).Some? && BrowserTarget(sql) != ServerTarget(sql)
  {
    var sql := head + ([q] + b);
    assert sql == (head + [q]) + b;
    var rest := NormalizeKeeps(head + [q], b);
    assert (head + [q]) + rest == head + ([q] + rest);
    HeadTarget(head, [q] + rest);
    var ts := JsTokens([q] + rest, 0);
    assert ts[0].text[0] == q;
    NotKeyword(ts[0].text, q);
    FirstByte(ts[0].text);
    GoTextsNonEmpty(Utf8(sql), 0);
    TargetIsText(GoTokens(Utf8(sql), 0));
  }

  lemma NotKeyword(text: string, q: char)
    requires text != "" && text[0] == q && (IsQuote(q) || q == '.')
    ensures !IsKeyword(Upper(text))
  {
    assert Upper(text)[0] == q;
  }

  lemma {:induction false} FirstTargetIsText(ts: seq<Token>)
    ensures FirstTarget(ts).Some? ==> exists k :: 0 <= k < |ts| && ts[k].text == FirstTarget(ts).value
  {
    if ts != [] && FirstTarget(ts).Some? && !(ts[0].depth == 0 && !IsKeyword(Upper(ts[0].text))) {
      FirstTargetIsText(ts[1..]);
      var k :| 0 <= k < |ts[1..]| && ts[1..][k].text == FirstTarget(ts).value;
      assert ts[k + 1].text == FirstTarget(ts).value;
    }
  }

  lemma TargetIsText(ts: seq<Token>)
    ensures TargetOf(ts).Some? ==> exists k :: 0 <= k < |ts| && ts[k].text == TargetOf(ts).value
  {
    if TargetOf(ts).Some? {
      FirstTargetIsText(ts[1..]);
      var k :| 0 <= k < |ts[1..]| && ts[1..][k].text == TargetOf(ts).value;
      assert ts[k + 1].text == TargetOf(ts).value;
    }
  }

  /** A valid schema before a quoted table name: both sides stop at the quote, after the dot. */
  lemma SchemaStatement(schema: string, q: char, b: string)
    requires IsValidSqlIdent(schema) && IsQuote(q)
    ensures var sql := TABLE + ((schema + ".") + ([q] + b));
            ServerTarget(sql) == Some(schema + ".") && BrowserTarget(sql) == Some(schema + ".")
  {
    var w := schema + ".";
    ValidIsWord(schema);
    DottedIsNoKeyword(w, |schema|);
    SchemaBytes(w, q, b);
    WordTarget(TABLE, w, [q] + Utf8(b));
    var rest := SchemaNormal(w, q, b);
    WordTarget(TABLE, w, [q] + rest);
    Utf8Ascii(w);
  }

  lemma SchemaBytes(w: string, q: char, b: string)
    requires AllAscii(w) && IsQuote(q)
    ensures Utf8(TABLE + (w + ([q] + b))) == TABLE + (w + ([q] + Utf8(b)))
  {
    HeadsAreAscii(TABLE);
    AsciiBefore(TABLE, w + ([q] + b));
    AsciiBefore(w, [q] + b);
    AsciiBefore([q], b);
  }

  lemma SchemaNormal(w: string, q: char, b: string) returns (rest: string)
    requires IsWord(w) && IsQuote(q)
    ensures Normalize(TABLE + (w + ([q] + b))) == TABLE + (w + ([q] + rest))
  {
    var a := TABLE + (w + [q]);
    rest := NormalizeKeeps(a, b);
    Nested(TABLE, w, [q], b);
    Nested(TABLE, w, [q], rest);
  }

  lemma Nested(a: string, b: string, c: string, d: string)
    ensures a + (b + (c + d)) == (a + (b + c)) + d
  {
  }

  lemma QuotedName(driver: Driver, name: string, tail: string)
    requires !IsValidSqlIdent(name)
    ensures IdentRef(driver, name) + tail
         == [QuoteMark(driver)] + (Doubled(name, QuoteMark(driver)) + [QuoteMark(driver)] + tail)
  {
  }

  /** DROP DATABASE: browser and server compute the same target if and only if the name is a
      valid identifier, and then it is the full name unless it is one of the six words. */
  lemma DatabaseTargets(driver: Driver, name: string)
    ensures var sql := BuildDropDatabase(driver, name);
            var browser, server := BrowserTarget(sql), ServerTarget(sql);
            && (browser == server <==> IsValidSqlIdent(name))
            && (IsValidSqlIdent(name) ==> browser == if IsKeyword(Upper(name)) then None else Some(name))
  {
    SingleName(DATABASE, driver, name);
    assert BuildDropDatabase(driver, name) == DATABASE + (IdentRef(driver, name) + ";");
  }

  lemma SingleName(head: string, driver: Driver, name: string)
    requires head == TABLE || head == DATABASE
    ensures var sql := head + (IdentRef(driver, name) + ";");
            var browser, server := BrowserTarget(sql), ServerTarget(sql);
            && (browser == server <==> IsValidSqlIdent(name))
            && (IsValidSqlIdent(name) ==> browser == if IsKeyword(Upper(name)) then None else Some(name))
  {
    if IsValidSqlIdent(name) {
      ValidIsWord(name);
      PlainStatement(head, name);
    } else {
      var q := QuoteMark(driver);
      QuotedName(driver, name, ";");
      QuotedStatement(head, q, Doubled(name, q) + [q] + ";");
    }
  }

  lemma Joined(a: string, b: string, c: string, d: string, e: string)
    ensures a + b + c + d + e == a + (b + (c + d + e))
    ensures a + b + c + d + e == a + ((b + c + d) + e)
    ensures a + b + c + d + e == a + ((b + c) + (d + e))
  {
  }

  /** On PostgreSQL the schema comes first. */
  lemma PostgresTargets(schema: string, name: string)
    ensures var sql := BuildDropTable(Postgres, schema, name);
            var browser, server := BrowserTarget(sql), ServerTarget(sql);
            && (browser == server <==> IsValidSqlIdent(schema))
            && (IsValidSqlIdent(schema) && IsValidSqlIdent(name) ==> browser == Some(schema + "." + name))
  {
    var s, n := IdentRef(Postgres, schema), IdentRef(Postgres, name);
    Joined(TABLE, s, ".", n, ";");
    if !IsValidSqlIdent(schema) {
      QuotedName(Postgres, schema, "." + n + ";");
      QuotedStatement(TABLE, '"', Doubled(schema, '"') + ['"'] + ("." + n + ";"));
    } else if IsValidSqlIdent(name) {
      var w := schema + "." + name;
      ValidIsWord(schema);
      DottedIsNoKeyword(w, |schema|);
      PlainStatement(TABLE, w);
    } else {
      QuotedName(Postgres, name, ";");
      SchemaStatement(schema, '"', Doubled(name, '"') + ['"'] + ";");
    }
  }

  /** DROP TABLE: browser and server compute the same target if and only if the first
      identifier of the statement, the schema on PostgreSQL, is valid. When all identifiers
      are valid it is the full dropped name, on MySQL unless that is one of the six words. */
  lemma TableTargets(driver: Driver, schema: string, name: string)
    ensures var sql := BuildDropTable(driver, schema, name);
            var browser, server := BrowserTarget(sql), ServerTarget(sql);
            && (browser == server <==> IsValidSqlIdent(if driver == Postgres then schema else name))
            && (driver == Postgres && IsValidSqlIdent(schema) && IsValidSqlIdent(name) ==>
                  browser == Some(schema + "." + name))
            && (driver == MySQL && IsValidSqlIdent(name) ==>
                  browser == if IsKeyword(Upper(name)) then None else Some(name))
  {
    if driver == MySQL {
      SingleName(TABLE, driver, name);
      assert BuildDropTable(driver, schema, name) == TABLE + (IdentRef(driver, name) + ";");
    } else {
      PostgresTargets(schema, name);
    }
  }
}
