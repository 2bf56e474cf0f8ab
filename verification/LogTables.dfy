/** The log tables of one session and what every transaction keeps about them
    (api/internal/logs/store.go, api/internal/migrate/sql/0002_logs.sql). */
module LogTables {
  import opened Wrappers
  import opened Tally

  // ---------------------------------------------------------------- parsing a line

  datatype Parsed = Parsed(timestamp: Option<int>, level: string, message: string)

  /** The five recognisers `ParseLogLine` tries in order; each sees the trimmed line. */
  datatype Patterns = Patterns(
    springBracket: string -> Option<Parsed>,
    spring: string -> Option<Parsed>,
    iso: string -> Option<Parsed>,
    json: string -> Option<Parsed>,
    nginx: string -> Option<Parsed>)

  /** Go's `unicode.IsSpace`. */
  predicate IsSpace(c: char) {
    || '\t' <= c <= '\r' || c == ' ' || c == '\U{85}' || c == '\U{A0}' || c == '\U{1680}'
    || '\U{2000}' <= c <= '\U{200A}' || c == '\U{2028}' || c == '\U{2029}' || c == '\U{202F}'
    || c == '\U{205F}' || c == '\U{3000}'
  }

  predicate IsBlank(s: string) {
    forall i :: 0 <= i < |s| ==> IsSpace(s[i])
  }

  predicate EndsLine(c: char) {
    c == '\r' || c == '\n'
  }

  /** `strings.TrimRight(s, "\r\n")`. */
  function TrimLine(s: string): (r: string)
    ensures r <= s
    ensures r == s <==> s == "" || !EndsLine(s[|s| - 1])
    ensures r == "" || !EndsLine(r[|r| - 1])
  {
    if s != "" && EndsLine(s[|s| - 1]) then TrimLine(s[..|s| - 1]) else s
  }

  function WithFallback(p: Parsed, last: Option<int>): Parsed {
    if p.timestamp.None? && last.Some? then p.(timestamp := last) else p
  }

  function ParseLogLine(pats: Patterns, line: string, last: Option<int>): (p: Parsed)
    ensures last.Some? ==> p.timestamp.Some?
  {
    var trimmed := TrimLine(line);
    if IsBlank(trimmed) then Parsed(last, "UNKNOWN", "")
    else if pats.springBracket(trimmed).Some? then WithFallback(pats.springBracket(trimmed).value, last)
    else if pats.spring(trimmed).Some? then WithFallback(pats.spring(trimmed).value, last)
    else if pats.iso(trimmed).Some? then WithFallback(pats.iso(trimmed).value, last)
    else if pats.json(trimmed).Some? then WithFallback(pats.json(trimmed).value, last)
    else if pats.nginx(trimmed).Some? then WithFallback(pats.nginx(trimmed).value, last)
    else Parsed(last, "UNKNOWN", trimmed)
  }

  function Recogniser(pats: Patterns, k: nat): string -> Option<Parsed>
    requires k < 5
  {
    if k == 0 then pats.springBracket else if k == 1 then pats.spring else if k == 2 then pats.iso
    else if k == 3 then pats.json else pats.nginx
  }

  /** The first recogniser that knows the trimmed line decides; without one the line is its own
      message. Only a missing timestamp is carried over, and line ends do not matter. */
  lemma FirstPatternDecides(pats: Patterns, line: string, last: Option<int>, k: nat)
    requires k <= 5 && forall j :: 0 <= j < k ==> Recogniser(pats, j)(TrimLine(line)).None?
    requires k < 5 ==> Recogniser(pats, k)(TrimLine(line)).Some?
    ensures var found := if IsBlank(TrimLine(line)) then Parsed(None, "UNKNOWN", "")
                         else if k < 5 then Recogniser(pats, k)(TrimLine(line)).value
                         else Parsed(None, "UNKNOWN", TrimLine(line));
            ParseLogLine(pats, line, last)
            == found.(timestamp := if found.timestamp.Some? then found.timestamp else last)
    ensures ParseLogLine(pats, TrimLine(line), last) == ParseLogLine(pats, line, last)
  {
    assert TrimLine(TrimLine(line)) == TrimLine(line);
    assert Recogniser(pats, 0) == pats.springBracket && Recogniser(pats, 1) == pats.spring;
    assert Recogniser(pats, 2) == pats.iso && Recogniser(pats, 3) == pats.json && Recogniser(pats, 4) == pats.nginx;
  }

  // ---------------------------------------------------------------- time buckets

  /** `(ms / 60_000) * 60_000` with Go's division, which truncates toward zero. */
  function BucketStart(ms: int): int {
    if ms >= 0 then ms / 60_000 * 60_000 else -((-ms) / 60_000 * 60_000)
  }

  /** A bucket begins at or before its entries, and less than one bucket size before, exactly
      for timestamps at or after the epoch and for exact negative multiples: truncation puts
      every other earlier timestamp into the bucket that starts after it, and the bucket at
      the epoch receives two minutes' worth. */
  lemma BucketContains(ms: int)
    ensures BucketStart(ms) <= ms < BucketStart(ms) + 60_000 <==> ms >= 0 || ms % 60_000 == 0
    ensures -60_000 < ms < 60_000 <==> BucketStart(ms) == 0
  {
  }

  // ---------------------------------------------------------------- tables

  datatype Scope = Scope(service: string, node: string)

  datatype Entry = Entry(
    file: string,
    scope: Scope,
    timestamp: Option<int>,
    level: string,
    message: string,
    raw: string,
    line: nat)

  datatype FileRow = FileRow(scope: Scope, totalLines: nat, done: bool)

  /** `entries` is in insertion order; `scopes` is `log_scope_stats`, `buckets` is
      `log_time_buckets` for the default bucket size. */
  datatype Tables = Tables(
    entries: seq<Entry>,
    scopes: map<Scope, int>,
    buckets: map<int, Count>,
    files: map<string, FileRow>)

  function LinesOf(scopes: map<Scope, int>, scope: Scope): int {
    if scope in scopes then scopes[scope] else 0
  }

  function BumpScope(scopes: map<Scope, int>, scope: Scope, n: int): map<Scope, int> {
    scopes[scope := LinesOf(scopes, scope) + n]
  }

  /** The bucket an entry belongs to; an entry without a timestamp belongs to none. */
  function HitOf(e: Entry): Option<Hit<int>> {
    if e.timestamp.None? then None else Some(Hit(BucketStart(e.timestamp.value), e.level == "ERROR"))
  }

  function Hits(es: seq<Entry>): (hits: seq<Option<Hit<int>>>)
    ensures |hits| == |es|
  {
    if es == [] then [] else [HitOf(es[0])] + Hits(es[1..])
  }

  /** One entry with its counters, as the tail path writes it. */
  function AddEntry(t: Tables, e: Entry): Tables {
    t.(entries := t.entries + [e],
       scopes := BumpScope(t.scopes, e.scope, 1),
       buckets := Add(t.buckets, HitOf(e)))
  }

  function AddEntries(t: Tables, es: seq<Entry>): Tables
    decreases |es|
  {
    if es == [] then t else AddEntries(AddEntry(t, es[0]), es[1..])
  }

  // ---------------------------------------------------------------- what the counters mean

  /** Number of entries of a service and node. */
  function CountScope(es: seq<Entry>, scope: Scope): int {
    if es == [] then 0 else (if es[0].scope == scope then 1 else 0) + CountScope(es[1..], scope)
  }

  lemma {:induction false} CountScopeAppend(a: seq<Entry>, b: seq<Entry>, scope: Scope)
    ensures CountScope(a + b, scope) == CountScope(a, scope) + CountScope(b, scope)
  {
    if a == [] {
      assert a + b == b;
    } else {
      assert (a + b)[1..] == a[1..] + b;
      CountScopeAppend(a[1..], b, scope);
    }
  }

  lemma {:induction false} HitsAppend(a: seq<Entry>, b: seq<Entry>)
    ensures Hits(a + b) == Hits(a) + Hits(b)
  {
    if a == [] {
      assert a + b == b;
    } else {
      assert (a + b)[1..] == a[1..] + b;
      HitsAppend(a[1..], b);
    }
  }

  /** The pre-aggregated tables agree with the raw entries. */
  ghost predicate CountersAgree(t: Tables) {
    && (forall scope :: LinesOf(t.scopes, scope) == CountScope(t.entries, scope))
    && (forall start :: TotalAt(t.buckets, start) == Total(Hits(t.entries), start))
    && (forall start :: ErrorsAt(t.buckets, start) == Errors(Hits(t.entries), start))
  }

  lemma AddEntryScope(t: Tables, e: Entry, scope: Scope)
    requires LinesOf(t.scopes, scope) == CountScope(t.entries, scope)
    ensures LinesOf(AddEntry(t, e).scopes, scope) == CountScope(AddEntry(t, e).entries, scope)
  {
    CountScopeAppend(t.entries, [e], scope);
    assert [e][1..] == [];
  }

  lemma HitsSnoc(es: seq<Entry>, e: Entry)
    ensures Hits(es + [e]) == Hits(es) + [HitOf(e)]
  {
    HitsAppend(es, [e]);
    assert [e][1..] == [];
  }

  lemma AddEntryBucket(table: map<int, Count>, hits: seq<Option<Hit<int>>>, hit: Option<Hit<int>>, start: int)
    requires TotalAt(table, start) == Total(hits, start) && ErrorsAt(table, start) == Errors(hits, start)
    ensures TotalAt(Add(table, hit), start) == Total(hits + [hit], start)
    ensures ErrorsAt(Add(table, hit), start) == Errors(hits + [hit], start)
  {
    AddAt(table, hit, start);
    TotalAppend(hits, [hit], start);
    assert [hit][1..] == [];
  }

  lemma AddEntryCounters(t: Tables, e: Entry)
    requires CountersAgree(t)
    ensures CountersAgree(AddEntry(t, e))
  {
    HitsSnoc(t.entries, e);
    forall scope
      ensures LinesOf(AddEntry(t, e).scopes, scope) == CountScope(AddEntry(t, e).entries, scope)
    {
      AddEntryScope(t, e, scope);
    }
    forall start
      ensures TotalAt(Add(t.buckets, HitOf(e)), start) == Total(Hits(t.entries + [e]), start)
      ensures ErrorsAt(Add(t.buckets, HitOf(e)), start) == Errors(Hits(t.entries + [e]), start)
    {
      AddEntryBucket(t.buckets, Hits(t.entries), HitOf(e), start);
    }
  }

  lemma {:induction false} AddEntriesCounters(t: Tables, es: seq<Entry>)
    requires CountersAgree(t)
    ensures CountersAgree(AddEntries(t, es))
    decreases |es|
  {
    if es != [] {
      AddEntryCounters(t, es[0]);
      AddEntriesCounters(AddEntry(t, es[0]), es[1..]);
    }
  }

  // ---------------------------------------------------------------- a batch in closed form

  /** A batch of one scope as `flush` writes it: rows, one scope delta, bucket deltas. */
  function WithBatch(t: Tables, es: seq<Entry>, scope: Scope): Tables {
    if es == [] then t
    else
      t.(entries := t.entries + es,
         scopes := BumpScope(t.scopes, scope, |es|),
         buckets := Fold(t.buckets, Hits(es)))
  }

  lemma WithBatchStep(t: Tables, es: seq<Entry>, scope: Scope)
    requires es != [] && es[0].scope == scope
    ensures WithBatch(AddEntry(t, es[0]), es[1..], scope) == WithBatch(t, es, scope)
  {
    var e, rest := es[0], es[1..];
    assert (t.entries + [e]) + rest == t.entries + es;
    assert Hits(es)[1..] == Hits(rest);
    if rest == [] {
      assert t.entries + [e] == t.entries + es;
      assert Fold(t.buckets, Hits(es)) == Fold(Add(t.buckets, HitOf(e)), []);
    }
  }

  /** The batch is the same as its entries added one by one. */
  lemma {:induction false} BatchIsOneByOne(t: Tables, es: seq<Entry>, scope: Scope)
    requires forall e :: e in es ==> e.scope == scope
    ensures AddEntries(t, es) == WithBatch(t, es, scope)
    decreases |es|
  {
    if es != [] {
      assert es[0] in es;
      assert forall e :: e in es[1..] ==> e in es;
      BatchIsOneByOne(AddEntry(t, es[0]), es[1..], scope);
      WithBatchStep(t, es, scope);
    }
  }

  lemma {:induction false} AddEntriesAppend(t: Tables, a: seq<Entry>, b: seq<Entry>)
    ensures AddEntries(t, a + b) == AddEntries(AddEntries(t, a), b)
    decreases |a|
  {
    if a == [] {
      assert a + b == b;
    } else {
      assert (a + b)[1..] == a[1..] + b && (a + b)[0] == a[0];
      AddEntriesAppend(AddEntry(t, a[0]), a[1..], b);
    }
  }

  lemma {:induction false} AddEntriesRows(t: Tables, es: seq<Entry>)
    ensures AddEntries(t, es).entries == t.entries + es
    ensures AddEntries(t, es).files == t.files
    decreases |es|
  {
    if es == [] {
      assert t.entries + es == t.entries;
    } else {
      AddEntriesRows(AddEntry(t, es[0]), es[1..]);
      assert (t.entries + [es[0]]) + es[1..] == t.entries + es;
    }
  }

  lemma {:induction false} AddEntriesFiles(t: Tables, es: seq<Entry>, files: map<string, FileRow>)
    ensures AddEntries(t.(files := files), es) == AddEntries(t, es).(files := files)
    decreases |es|
  {
    if es != [] {
      AddEntriesFiles(AddEntry(t, es[0]), es[1..], files);
    }
  }
}
