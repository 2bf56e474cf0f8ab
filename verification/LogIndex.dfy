/** The two writers of the log tables (api/internal/logs/store.go): `indexFile`, which stores a
    file in batches, and `AppendTailLine`, which stores one line per transaction. */
module LogIndex {
  import opened Wrappers
  import opened LogTables
  import opened Tally

  // ---------------------------------------------------------------- the entries of a file

  function EntryOf(pats: Patterns, file: string, scope: Scope, raw: string, last: Option<int>, line: nat): Entry {
    var p := ParseLogLine(pats, raw, last);
    Entry(file, scope, p.timestamp, p.level, if p.message == "" then raw else p.message, raw, line)
  }

  /** `lastTimestamp` after a line. */
  function Carry(e: Entry, last: Option<int>): Option<int> {
    if e.timestamp.Some? then e.timestamp else last
  }

  /** The entries of consecutive lines, the first one numbered `line`. */
  function Entries(pats: Patterns, file: string, scope: Scope, lines: seq<string>, last: Option<int>, line: nat)
    : (es: seq<Entry>)
    ensures |es| == |lines|
    ensures forall e :: e in es ==> e.scope == scope && e.file == file
  {
    if lines == [] then []
    else
      var e := EntryOf(pats, file, scope, lines[0], last, line);
      [e] + Entries(pats, file, scope, lines[1..], Carry(e, last), line + 1)
  }

  /** `lastTimestamp` always equals the timestamp stored on the previous line. */
  lemma CarryIsStored(pats: Patterns, file: string, scope: Scope, raw: string, last: Option<int>, line: nat)
    ensures var e := EntryOf(pats, file, scope, raw, last, line);
            Carry(e, last) == e.timestamp
  {
  }

  /** Raw text and line numbers of the entries are those of the lines. */
  lemma {:induction false} EntriesRaw(pats: Patterns, file: string, scope: Scope, lines: seq<string>,
                                      last: Option<int>, line: nat, k: nat)
    requires k < |lines|
    ensures Entries(pats, file, scope, lines, last, line)[k].raw == lines[k]
    ensures Entries(pats, file, scope, lines, last, line)[k].line == line + k
    decreases k
  {
    if k > 0 {
      var e := EntryOf(pats, file, scope, lines[0], last, line);
      EntriesRaw(pats, file, scope, lines[1..], Carry(e, last), line + 1, k - 1);
    }
  }

  /** The timestamp of the last of the first `n` entries. */
  function LastOf(es: seq<Entry>, n: nat): Option<int>
    requires n <= |es|
  {
    if n == 0 then None else es[n - 1].timestamp
  }

  /** Each entry carries on from the one before it. */
  lemma {:induction false} EntryAt(pats: Patterns, file: string, scope: Scope, lines: seq<string>,
                                   last: Option<int>, line: nat, n: nat)
    requires n < |lines|
    ensures var es := Entries(pats, file, scope, lines, last, line);
            es[n] == EntryOf(pats, file, scope, lines[n], if n == 0 then last else es[n - 1].timestamp, line + n)
    decreases n
  {
    var e := EntryOf(pats, file, scope, lines[0], last, line);
    CarryIsStored(pats, file, scope, lines[0], last, line);
    if n > 0 {
      var rest := Entries(pats, file, scope, lines[1..], e.timestamp, line + 1);
      assert Entries(pats, file, scope, lines, last, line) == [e] + rest;
      EntryAt(pats, file, scope, lines[1..], e.timestamp, line + 1, n - 1);
      assert lines[1..][n - 1] == lines[n];
      assert ([e] + rest)[n] == rest[n - 1] && ([e] + rest)[n - 1] == if n == 1 then e else rest[n - 2];
    }
  }

  // ---------------------------------------------------------------- one tailed line

  datatype Error = NotFound | Failed

  /** The row `ORDER BY line_number DESC LIMIT 1` finds for a file. */
  function Latest(es: seq<Entry>, file: string): (e: Option<Entry>)
    ensures e.Some? ==> e.value.file == file
  {
    if es == [] then None
    else
      var rest := Latest(es[..|es| - 1], file);
      var e := es[|es| - 1];
      if e.file == file && (rest.None? || e.line >= rest.value.line) then Some(e) else rest
  }

  function PreviousTimestamp(es: seq<Entry>, file: string): Option<int> {
    match Latest(es, file)
    case None => None
    case Some(e) => e.timestamp
  }

  function TailEntry(pats: Patterns, t: Tables, file: string, raw: string): Entry
    requires file in t.files
  {
    var row := t.files[file];
    EntryOf(pats, file, row.scope, TrimLine(raw), PreviousTimestamp(t.entries, file), row.totalLines + 1)
  }

  /** The committed effect of `AppendTailLine`. */
  function Tailed(pats: Patterns, t: Tables, file: string, raw: string): Tables
    requires file in t.files
  {
    var row := t.files[file];
    AddEntry(t, TailEntry(pats, t, file, raw)).(files := t.files[file := row.(totalLines := row.totalLines + 1, done := true)])
  }

  /** The lines of a stream, one transaction each. */
  function TailedAll(pats: Patterns, t: Tables, file: string, lines: seq<string>): Tables
    requires file in t.files
    decreases |lines|
  {
    if lines == [] then t else TailedAll(pats, Tailed(pats, t, file, lines[0]), file, lines[1..])
  }

  /** `CreateTailFile`. */
  function TailFileCreated(t: Tables, file: string, scope: Scope): Tables {
    t.(files := t.files[file := FileRow(scope, 0, true)])
  }

  /** `AddFile` up to the call of `indexFile`. */
  function UploadCreated(t: Tables, file: string, scope: Scope): Tables {
    t.(files := t.files[file := FileRow(scope, 0, false)])
  }

  /** `AddFile` as a whole when nothing fails. */
  function Uploaded(pats: Patterns, t: Tables, file: string, scope: Scope, lines: seq<string>): Tables {
    AddEntries(UploadCreated(t, file, scope), Entries(pats, file, scope, lines, None, 1))
    .(files := t.files[file := FileRow(scope, |lines|, true)])
  }

  // ---------------------------------------------------------------- the store

  class LogStore {
    const pats: Patterns
    var entries: seq<Entry>
    var scopes: map<Scope, int>
    var buckets: map<int, Count>
    var files: map<string, FileRow>

    constructor (pats: Patterns)
      ensures View() == Tables([], map[], map[], map[]) && this.pats == pats
    {
      this.pats := pats;
      entries, scopes, buckets, files := [], map[], map[], map[];
    }

    ghost function View(): Tables
      reads this
    {
      Tables(entries, scopes, buckets, files)
    }

    /** One tailed line in one transaction; `fails` says that a statement or the commit fails. */
    method AppendTailLine(file: string, line: string, fails: bool) returns (r: Result<Entry, Error>)
      modifies this
      ensures file !in old(files) ==> r == Err(NotFound)
      ensures r.Err? <==> file !in old(files) || fails
      ensures r.Err? ==> View() == old(View())
      ensures r.Ok? ==> View() == Tailed(pats, old(View()), file, line)
                        && r.value == TailEntry(pats, old(View()), file, line)
    {
      var raw := TrimLine(line);
      if file !in files {
        return Err(NotFound);
      }
      var row := files[file];
      var previous := PreviousTimestamp(entries, file);
      var parsed := ParseLogLine(pats, raw, previous);
      var message := if parsed.message == "" then raw else parsed.message;
      var entry := Entry(file, row.scope, parsed.timestamp, parsed.level, message, raw, row.totalLines + 1);
      if fails {
        return Err(Failed);
      }
      entries := entries + [entry];
      files := files[file := row.(totalLines := row.totalLines + 1, done := true)];
      scopes := BumpScope(scopes, row.scope, 1);
      if parsed.timestamp.Some? {
        var start := BucketStart(parsed.timestamp.value);
        buckets := Bump(buckets, start, 1, if parsed.level == "ERROR" then 1 else 0);
      }
      return Ok(entry);
    }

    /** `CreateTailFile` after its checks. */
    method CreateTailFile(file: string, scope: Scope)
      modifies this`files
      ensures View() == TailFileCreated(old(View()), file, scope)
      ensures CountersAgree(old(View())) ==> CountersAgree(View())
      ensures forall raw: string :: TailEntry(pats, View(), file, raw).line == 1
    {
      files := files[file := FileRow(scope, 0, true)];
    }

    /** `AddFile` after the upload is saved: the row, the entries, and at the end the number of
        lines. When indexing fails the row keeps zero lines next to the batches stored, and when
        the update after it fails, next to all of them. */
    method AddFile(file: string, scope: Scope, lines: seq<string>, scanFails: bool, brokenFlush: Option<nat>, updateFails: bool)
      returns (ok: bool, stored: nat)
      modifies this
      ensures ok ==> View() == Uploaded(pats, old(View()), file, scope, lines)
      ensures ok ==> stored == |lines| && !updateFails
      ensures !ok ==> scanFails || brokenFlush.Some? || updateFails
      ensures !ok ==> stored <= |lines| && (stored % BATCH_SIZE == 0 || (updateFails && stored == |lines|))
                      && View() == AddEntries(UploadCreated(old(View()), file, scope),
                                              Entries(pats, file, scope, lines, None, 1)[..stored])
    {
      files := files[file := FileRow(scope, 0, false)];
      var lineNumber;
      lineNumber, ok, stored := IndexFile(file, scope, lines, BATCH_SIZE, scanFails, brokenFlush);
      if ok && updateFails {
        ok := false;
      } else if ok {
        AllStored(pats, old(View()), file, scope, lines, View(), stored);
        files := files[file := FileRow(scope, lineNumber, true)];
      } else {
        WholeIsMultiple(stored);
      }
    }

    /** `flush`: the bucket deltas are gathered first, then one transaction writes the rows,
        the scope counter and every bucket, the buckets in any order. */
    method Flush(batch: seq<Entry>, scope: Scope, fails: bool) returns (ok: bool)
      requires forall e :: e in batch ==> e.scope == scope
      modifies this
      ensures ok <==> batch == [] || !fails
      ensures ok ==> View() == AddEntries(old(View()), batch)
      ensures !ok ==> View() == old(View())
    {
      BatchIsOneByOne(View(), batch, scope);
      if batch == [] {
        return true;
      }
      var deltas := GatherDeltas(batch);
      if fails {
        return false;
      }
      entries := entries + batch;
      scopes := BumpScope(scopes, scope, |batch|);
      WriteDeltas(deltas, Hits(batch));
      return true;
    }

    /** The second loop of `flush`: one upsert per key, the keys in any order. */
    method WriteDeltas(deltas: map<int, Count>, ghost hits: seq<Option<Hit<int>>>)
      requires deltas == Fold(map[], hits)
      modifies this`buckets
      ensures buckets == Fold(old(buckets), hits)
    {
      var todo := deltas.Keys;
      ghost var done: set<int> := {};
      ghost var before := buckets;
      while todo != {}
        invariant todo <= deltas.Keys && done == deltas.Keys - todo
        invariant forall start :: Written(before, buckets, deltas, done, start)
        decreases |todo|
      {
        ghost var one := Element(todo);
        var start :| start in todo;
        ghost var was := buckets;
        buckets := Bump(buckets, start, deltas[start].total, deltas[start].errors);
        forall key
          ensures Written(before, buckets, deltas, done + {start}, key)
        {
          assert Written(before, was, deltas, done, key);
        }
        todo, done := todo - {start}, done + {start};
      }
      assert done == deltas.Keys;
      assert forall start :: Written(before, buckets, deltas, deltas.Keys, start);
      DeltasAreFold(before, buckets, deltas, hits);
    }

    /** The first loop of `flush`. */
    method GatherDeltas(batch: seq<Entry>) returns (deltas: map<int, Count>)
      ensures deltas == Fold(map[], Hits(batch))
    {
      deltas := map[];
      var i := 0;
      while i < |batch|
        invariant 0 <= i <= |batch|
        invariant deltas == Fold(map[], Hits(batch[..i]))
      {
        var row := batch[i];
        ghost var was := deltas;
        if row.timestamp.Some? {
          var start := BucketStart(row.timestamp.value);
          var delta := if start in deltas then deltas[start] else Count(0, 0);
          delta := delta.(total := delta.total + 1);
          if row.level == "ERROR" {
            delta := delta.(errors := delta.errors + 1);
          }
          deltas := deltas[start := delta];
        }
        assert deltas == Add(was, HitOf(row));
        HitsSnoc(batch[..i], row);
        FoldSnoc(map[], Hits(batch[..i]), HitOf(row));
        assert batch[..i] + [row] == batch[..i + 1];
        i := i + 1;
      }
      assert batch[..i] == batch;
    }

    /** One turn of the loop of `indexFile`: the entry, and the timestamp carried on. */
    method ReadLine(file: string, scope: Scope, lines: seq<string>, n: nat, last: Option<int>)
      returns (entry: Entry, carried: Option<int>)
      requires n < |lines| && last == LastOf(Entries(pats, file, scope, lines, None, 1), n)
      ensures entry == Entries(pats, file, scope, lines, None, 1)[n] && carried == entry.timestamp
    {
      carried := last;
      var parsed := ParseLogLine(pats, lines[n], last);
      if parsed.timestamp.Some? {
        carried := parsed.timestamp;
      }
      var message := if parsed.message == "" then lines[n] else parsed.message;
      entry := Entry(file, scope, parsed.timestamp, parsed.level, message, lines[n], n + 1);
      EntryAt(pats, file, scope, lines, None, 1, n);
      CarryIsStored(pats, file, scope, lines[n], last, n + 1);
    }

    /** `flush` as `indexFile` calls it, after `line` lines of which `stored` are committed. */
    method FlushLines(batch: seq<Entry>, scope: Scope, fails: bool, ghost file: string, ghost lines: seq<string>,
                      ghost before: Tables, ghost all: seq<Entry>, ghost last: Option<int>, ghost stored: nat, ghost line: nat)
      returns (ok: bool)
      requires Indexing(pats, file, scope, lines, before, View(), all, last, stored, line, batch)
      modifies this
      ensures !ok ==> fails && View() == old(View())
      ensures ok ==> Indexing(pats, file, scope, lines, before, View(), all, last, line, line, [])
    {
      NextFlush(pats, file, scope, lines, before, View(), all, last, stored, line, batch);
      ok := Flush(batch, scope, fails);
    }

    /** `indexFile`. `lines` is what the scanner delivers and `scanFails` whether it then stops
        with an error; `brokenFlush` names the flush whose transaction fails, if any.
        `stored` is the number of lines committed. */
    method IndexFile(file: string, scope: Scope, lines: seq<string>, batchSize: nat, scanFails: bool, brokenFlush: Option<nat>)
      returns (lineNumber: nat, ok: bool, stored: nat)
      requires batchSize > 0
      modifies this
      ensures stored <= |lines|
      ensures View() == AddEntries(old(View()), Entries(pats, file, scope, lines, None, 1)[..stored])
      ensures ok ==> stored == lineNumber == |lines| && !scanFails
      ensures !ok ==> scanFails || brokenFlush.Some?
      ensures !ok ==> lineNumber - stored <= batchSize
      ensures !ok ==> WholeBatches(stored, batchSize)
    {
      lineNumber, stored := 0, 0;
      var last: Option<int> := None;
      var batch: seq<Entry> := [];
      var flushes := 0;
      ghost var all := Entries(pats, file, scope, lines, None, 1);
      ghost var t0 := View();
      while lineNumber < |lines|
        invariant |batch| < batchSize
        invariant WholeBatches(stored, batchSize)
        invariant Indexing(pats, file, scope, lines, t0, View(), all, last, stored, lineNumber, batch)
      {
        NextEntry(pats, file, scope, lines, t0, View(), all, last, stored, lineNumber, batch);
        var entry;
        entry, last := ReadLine(file, scope, lines, lineNumber, last);
        lineNumber := lineNumber + 1;
        batch := batch + [entry];
        if |batch| >= batchSize {
          FullBatch(stored, lineNumber, batchSize);
          var flushed := FlushLines(batch, scope, brokenFlush == Some(flushes), file, lines, t0, all, last, stored, lineNumber);
          if !flushed {
            WithFirstIs(t0, all, stored);
            return lineNumber, false, stored;
          }
          stored := lineNumber;
          flushes := flushes + 1;
          batch := [];
        }
      }
      if scanFails {
        WithFirstIs(t0, all, stored);
        return lineNumber, false, stored;
      }
      var flushed := FlushLines(batch, scope, brokenFlush == Some(flushes), file, lines, t0, all, last, stored, lineNumber);
      if flushed {
        stored := lineNumber;
      }
      WithFirstIs(t0, all, stored);
      return lineNumber, flushed, stored;
    }
  }

  const BATCH_SIZE := 5000

  lemma AllStored(pats: Patterns, before: Tables, file: string, scope: Scope, lines: seq<string>, now: Tables, stored: nat)
    requires stored == |lines|
    requires now == AddEntries(UploadCreated(before, file, scope), Entries(pats, file, scope, lines, None, 1)[..stored])
    ensures now.(files := now.files[file := FileRow(scope, |lines|, true)]) == Uploaded(pats, before, file, scope, lines)
  {
    var all, created := Entries(pats, file, scope, lines, None, 1), UploadCreated(before, file, scope);
    assert all[..stored] == all;
    AddEntriesRows(created, all);
    assert created.files[file := FileRow(scope, |lines|, true)] == before.files[file := FileRow(scope, |lines|, true)];
  }

  /** So many lines fill whole batches. */
  predicate WholeBatches(n: nat, size: nat)
    requires size > 0
  {
    n == 0 || (n >= size && WholeBatches(n - size, size))
  }

  lemma FullBatch(stored: nat, line: nat, size: nat)
    requires size > 0 && WholeBatches(stored, size) && line - stored == size
    ensures WholeBatches(line, size)
  {
  }

  lemma {:induction false} WholeIsMultiple(n: nat)
    requires WholeBatches(n, BATCH_SIZE)
    ensures n % BATCH_SIZE == 0
  {
    if n > 0 {
      WholeIsMultiple(n - BATCH_SIZE);
    }
  }

  lemma Element<T>(s: set<T>) returns (x: T)
    requires s != {}
    ensures x in s
  {
    x :| x in s;
  }

  /** The tables with the first `n` of the entries added. */
  function WithFirst(t: Tables, es: seq<Entry>, n: nat): Tables
    requires n <= |es|
  {
    if n == 0 then t else AddEntry(WithFirst(t, es, n - 1), es[n - 1])
  }

  lemma {:induction false} WithFirstIs(t: Tables, es: seq<Entry>, n: nat)
    requires n <= |es|
    ensures WithFirst(t, es, n) == AddEntries(t, es[..n])
  {
    if n > 0 {
      WithFirstIs(t, es, n - 1);
      assert es[..n] == es[..n - 1] + [es[n - 1]];
      AddEntriesAppend(t, es[..n - 1], [es[n - 1]]);
      assert [es[n - 1]][1..] == [];
    }
  }

  /** The state of `indexFile` between two lines: `all` are the entries of the whole file. */
  ghost predicate Indexing(pats: Patterns, file: string, scope: Scope, lines: seq<string>, before: Tables, now: Tables,
                           all: seq<Entry>, last: Option<int>, stored: nat, line: nat, batch: seq<Entry>)
  {
    && all == Entries(pats, file, scope, lines, None, 1)
    && stored <= line <= |lines|
    && batch == all[stored..line] && |batch| == line - stored
    && last == LastOf(all, line)
    && now == WithFirst(before, all, stored)
  }

  lemma NextEntry(pats: Patterns, file: string, scope: Scope, lines: seq<string>, before: Tables, now: Tables,
                  all: seq<Entry>, last: Option<int>, stored: nat, line: nat, batch: seq<Entry>)
    requires Indexing(pats, file, scope, lines, before, now, all, last, stored, line, batch) && line < |lines|
    ensures Indexing(pats, file, scope, lines, before, now, all, all[line].timestamp, stored, line + 1, batch + [all[line]])
  {
    assert all[stored..line + 1] == all[stored..line] + [all[line]];
  }

  lemma Slices<T>(s: seq<T>, a: nat, b: nat)
    requires a <= b <= |s|
    ensures s[..a] + s[a..b] == s[..b] && s[b..b] == []
    ensures forall x :: x in s[a..b] ==> x in s
  {
  }

  lemma NextFlush(pats: Patterns, file: string, scope: Scope, lines: seq<string>, before: Tables, now: Tables,
                  all: seq<Entry>, last: Option<int>, stored: nat, line: nat, batch: seq<Entry>)
    requires Indexing(pats, file, scope, lines, before, now, all, last, stored, line, batch)
    ensures Indexing(pats, file, scope, lines, before, AddEntries(now, batch), all, last, line, line, [])
    ensures forall e :: e in batch ==> e.scope == scope
  {
    Slices(all, stored, line);
    WithFirstIs(before, all, stored);
    WithFirstIs(before, all, line);
    AddEntriesAppend(before, all[..stored], all[stored..line]);
  }
}
