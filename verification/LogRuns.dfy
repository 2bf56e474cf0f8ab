/** The main results about the log tables: tailing a stream and uploading it as a file store
    the same, the counters agree with the entries in every run of both writers,
    and line numbers have no gaps exactly while every step writes on from the last line stored. */
module LogRuns {
  import opened Wrappers
  import opened LogTables
  import opened LogIndex

  // ---------------------------------------------------------------- tail and upload agree

  function TrimAll(lines: seq<string>): (r: seq<string>)
    ensures |r| == |lines|
    ensures forall k :: 0 <= k < |lines| ==> r[k] == TrimLine(lines[k])
  {
    if lines == [] then [] else [TrimLine(lines[0])] + TrimAll(lines[1..])
  }

  /** The newest stored line of a file carries `last` and a number up to `n`. */
  ghost predicate LatestIs(es: seq<Entry>, file: string, last: Option<int>, n: nat) {
    match Latest(es, file)
    case None => last.None?
    case Some(e) => e.timestamp == last && e.line <= n
  }

  lemma LatestSnoc(es: seq<Entry>, e: Entry)
    requires Latest(es, e.file).Some? ==> Latest(es, e.file).value.line <= e.line
    ensures Latest(es + [e], e.file) == Some(e)
  {
    assert (es + [e])[..|es + [e]| - 1] == es;
  }

  lemma {:induction false} LatestNone(es: seq<Entry>, file: string)
    requires forall e :: e in es ==> e.file != file
    ensures Latest(es, file).None?
  {
    if es != [] {
      LatestNone(es[..|es| - 1], file);
    }
  }

  /** Entries with their counters, and the file's row as it is at the end. */
  function Stored(t: Tables, file: string, es: seq<Entry>, row: FileRow): Tables {
    AddEntries(t, es).(files := t.files[file := row])
  }

  lemma StoredStep(t: Tables, file: string, e: Entry, rest: seq<Entry>, row1: FileRow, row: FileRow)
    ensures Stored(AddEntry(t, e).(files := t.files[file := row1]), file, rest, row) == Stored(t, file, [e] + rest, row)
  {
    AddEntriesFiles(AddEntry(t, e), rest, t.files[file := row1]);
    assert ([e] + rest)[1..] == rest;
    assert t.files[file := row1][file := row] == t.files[file := row];
  }

  lemma StoredFrom(t: Tables, file: string, es: seq<Entry>, row0: FileRow, row: FileRow)
    ensures Stored(t.(files := t.files[file := row0]), file, es, row) == Stored(t, file, es, row)
  {
    AddEntriesFiles(t, es, t.files[file := row0]);
    assert t.files[file := row0][file := row] == t.files[file := row];
  }

  /** One tailed line: its entry is the next one `indexFile` computes, and the newest row of
      the file carries its timestamp. */
  lemma TailStep(pats: Patterns, t: Tables, file: string, line: string, last: Option<int>)
    requires file in t.files && LatestIs(t.entries, file, last, t.files[file].totalLines)
    ensures var e := TailEntry(pats, t, file, line);
            var t1 := Tailed(pats, t, file, line);
            && e == EntryOf(pats, file, t.files[file].scope, TrimLine(line), last, t.files[file].totalLines + 1)
            && e.timestamp == Carry(e, last)
            && LatestIs(t1.entries, file, e.timestamp, t1.files[file].totalLines)
  {
    LatestSnoc(t.entries, TailEntry(pats, t, file, line));
    CarryIsStored(pats, file, t.files[file].scope, TrimLine(line), last, t.files[file].totalLines + 1);
  }

  lemma EntriesStep(pats: Patterns, file: string, scope: Scope, lines: seq<string>, last: Option<int>, n: nat)
    requires lines != []
    ensures var e := EntryOf(pats, file, scope, TrimLine(lines[0]), last, n);
            Entries(pats, file, scope, TrimAll(lines), last, n)
            == [e] + Entries(pats, file, scope, TrimAll(lines[1..]), Carry(e, last), n + 1)
  {
    assert TrimAll(lines)[1..] == TrimAll(lines[1..]);
  }

  lemma StoredNothing(t: Tables, file: string, row: FileRow)
    requires file in t.files && t.files[file] == row
    ensures Stored(t, file, [], row) == t
  {
    assert t.files[file := row] == t.files;
  }

  /** One transaction per line writes the entries `indexFile` computes for the trimmed lines. */
  lemma {:induction false} TailIsEntries(pats: Patterns, t: Tables, file: string, lines: seq<string>, last: Option<int>,
                                         row: FileRow, end: FileRow)
    requires file in t.files && t.files[file] == row && row.done
    requires end == row.(totalLines := row.totalLines + |lines|)
    requires LatestIs(t.entries, file, last, row.totalLines)
    ensures TailedAll(pats, t, file, lines)
            == Stored(t, file, Entries(pats, file, row.scope, TrimAll(lines), last, row.totalLines + 1), end)
    decreases |lines|
  {
    if lines == [] {
      assert Entries(pats, file, row.scope, TrimAll(lines), last, row.totalLines + 1) == [];
      StoredNothing(t, file, row);
    } else {
      var e := TailEntry(pats, t, file, lines[0]);
      var row1 := row.(totalLines := row.totalLines + 1);
      TailStep(pats, t, file, lines[0], last);
      TailIsEntries(pats, Tailed(pats, t, file, lines[0]), file, lines[1..], e.timestamp, row1, end);
      EntriesStep(pats, file, row.scope, lines, last, row.totalLines + 1);
      TailCons(pats, t, file, lines, e, Entries(pats, file, row.scope, TrimAll(lines[1..]), e.timestamp, row1.totalLines + 1),
               row1, end);
    }
  }

  lemma TailCons(pats: Patterns, t: Tables, file: string, lines: seq<string>, e: Entry, rest: seq<Entry>, row1: FileRow, end: FileRow)
    requires lines != [] && file in t.files
    requires Tailed(pats, t, file, lines[0]) == AddEntry(t, e).(files := t.files[file := row1])
    requires TailedAll(pats, Tailed(pats, t, file, lines[0]), file, lines[1..])
          == Stored(Tailed(pats, t, file, lines[0]), file, rest, end)
    ensures TailedAll(pats, t, file, lines) == Stored(t, file, [e] + rest, end)
  {
    StoredStep(t, file, e, rest, row1, end);
  }

  lemma UploadedIsStored(pats: Patterns, t: Tables, file: string, scope: Scope, lines: seq<string>)
    ensures Uploaded(pats, t, file, scope, lines)
         == Stored(t, file, Entries(pats, file, scope, lines, None, 1), FileRow(scope, |lines|, true))
  {
    AddEntriesFiles(t, Entries(pats, file, scope, lines, None, 1), UploadCreated(t, file, scope).files);
  }

  /** Tailing a stream into a new file leaves exactly the tables that uploading the same lines,
      without their trailing CR and LF, as a file does: entries, carried timestamps, levels,
      messages, line numbers, scope counts, bucket counts and the file row. */
  lemma TailingIsUploadingTrimmed(pats: Patterns, t: Tables, file: string, scope: Scope, lines: seq<string>)
    requires forall e :: e in t.entries ==> e.file != file
    ensures TailedAll(pats, TailFileCreated(t, file, scope), file, lines)
         == Uploaded(pats, t, file, scope, TrimAll(lines))
  {
    var row0, end := FileRow(scope, 0, true), FileRow(scope, |lines|, true);
    var es := Entries(pats, file, scope, TrimAll(lines), None, 1);
    calc {
      TailedAll(pats, TailFileCreated(t, file, scope), file, lines);
      { LatestNone(t.entries, file);
        TailIsEntries(pats, TailFileCreated(t, file, scope), file, lines, None, row0, end); }
      Stored(TailFileCreated(t, file, scope), file, es, end);
      { StoredFrom(t, file, es, row0, end); }
      Stored(t, file, es, end);
      { UploadedIsStored(pats, t, file, scope, TrimAll(lines)); }
      Uploaded(pats, t, file, scope, TrimAll(lines));
    }
  }

  /** The stored raw texts are the lines, so two uploads agree only when their lines do. */
  lemma UploadRows(pats: Patterns, t: Tables, file: string, scope: Scope, lines: seq<string>, k: nat)
    requires k < |lines|
    ensures var es := Uploaded(pats, t, file, scope, lines).entries;
            |t.entries| + k < |es| && es[|t.entries| + k].raw == lines[k]
  {
    var es := Entries(pats, file, scope, lines, None, 1);
    AddEntriesRows(UploadCreated(t, file, scope), es);
    EntriesRaw(pats, file, scope, lines, None, 1, k);
  }

  /** The two writers agree on a list of lines if and only if no line ends in CR or LF. */
  lemma WritersAgreeExactly(pats: Patterns, t: Tables, file: string, scope: Scope, lines: seq<string>)
    requires forall e :: e in t.entries ==> e.file != file
    ensures Uploaded(pats, t, file, scope, lines) == TailedAll(pats, TailFileCreated(t, file, scope), file, lines)
            <==> forall k :: 0 <= k < |lines| ==> lines[k] == "" || !EndsLine(lines[k][|lines[k]| - 1])
  {
    TailingIsUploadingTrimmed(pats, t, file, scope, lines);
    if Uploaded(pats, t, file, scope, lines) == Uploaded(pats, t, file, scope, TrimAll(lines)) {
      forall k | 0 <= k < |lines|
        ensures lines[k] == TrimLine(lines[k])
      {
        UploadRows(pats, t, file, scope, lines, k);
        UploadRows(pats, t, file, scope, TrimAll(lines), k);
      }
    }
    if forall k :: 0 <= k < |lines| ==> lines[k] == "" || !EndsLine(lines[k][|lines[k]| - 1]) {
      forall k | 0 <= k < |lines|
        ensures TrimAll(lines)[k] == lines[k]
      {
        assert TrimLine(lines[k]) == lines[k];
      }
      assert TrimAll(lines) == lines;
    }
  }

  // ---------------------------------------------------------------- runs of both writers

  /** An indexing run in progress: its entries, and how many are committed. */
  datatype Job = Job(entries: seq<Entry>, flushed: nat)

  /** `stopped` are the files whose indexing ended with an error. */
  datatype State = State(t: Tables, jobs: map<string, Job>, stopped: set<string>)

  datatype Step =
    | CreateTail(file: string, scope: Scope)
    | StartUpload(file: string, scope: Scope, lines: seq<string>)
    | FlushBatch(file: string, n: nat)
    | StopUpload(file: string)
    | FinishUpload(file: string)
    | AppendLine(file: string, raw: string)

  predicate Enabled(s: State, step: Step) {
    match step
    case CreateTail(file, _) => file !in s.t.files
    case StartUpload(file, _, _) => file !in s.t.files
    case FlushBatch(file, n) => file in s.jobs && s.jobs[file].flushed + n <= |s.jobs[file].entries|
    case StopUpload(file) => file in s.jobs
    case FinishUpload(file) => file in s.jobs && file in s.t.files && s.jobs[file].flushed == |s.jobs[file].entries|
    case AppendLine(file, _) => file in s.t.files
  }

  function Next(pats: Patterns, s: State, step: Step): State
    requires Enabled(s, step)
  {
    match step
    case CreateTail(file, scope) => s.(t := TailFileCreated(s.t, file, scope))
    case StartUpload(file, scope, lines) =>
      s.(t := UploadCreated(s.t, file, scope), jobs := s.jobs[file := Job(Entries(pats, file, scope, lines, None, 1), 0)])
    case FlushBatch(file, n) =>
      var job := s.jobs[file];
      s.(t := AddEntries(s.t, job.entries[job.flushed..job.flushed + n]),
         jobs := s.jobs[file := job.(flushed := job.flushed + n)])
    case StopUpload(file) => s.(jobs := s.jobs - {file}, stopped := s.stopped + {file})
    case FinishUpload(file) =>
      var row := s.t.files[file];
      s.(t := s.t.(files := s.t.files[file := row.(totalLines := |s.jobs[file].entries|, done := true)]),
         jobs := s.jobs - {file})
    case AppendLine(file, raw) => s.(t := Tailed(pats, s.t, file, raw))
  }

  ghost predicate Run(pats: Patterns, s: State, steps: seq<Step>)
    decreases |steps|
  {
    steps == [] || (Enabled(s, steps[0]) && Run(pats, Next(pats, s, steps[0]), steps[1..]))
  }

  ghost function After(pats: Patterns, s: State, steps: seq<Step>): State
    requires Run(pats, s, steps)
    decreases |steps|
  {
    if steps == [] then s else After(pats, Next(pats, s, steps[0]), steps[1..])
  }

  const EMPTY := State(Tables([], map[], map[], map[]), map[], {})

  lemma StepKeepsCounters(pats: Patterns, s: State, step: Step)
    requires CountersAgree(s.t) && Enabled(s, step)
    ensures CountersAgree(Next(pats, s, step).t)
  {
    match step
    case FlushBatch(file, n) =>
      var job := s.jobs[file];
      AddEntriesCounters(s.t, job.entries[job.flushed..job.flushed + n]);
    case AppendLine(file, raw) => AddEntryCounters(s.t, TailEntry(pats, s.t, file, raw));
    case CreateTail(_, _) =>
    case StartUpload(_, _, _) =>
    case StopUpload(_) =>
    case FinishUpload(_) =>
  }

  /** After any interleaving of batches and tailed lines over any files, uploads that stop
      half-way included, every scope count and every bucket count and error count is the
      count of the stored entries. */
  lemma {:induction false} CountersAlwaysAgree(pats: Patterns, s: State, steps: seq<Step>)
    requires CountersAgree(s.t) && Run(pats, s, steps)
    ensures CountersAgree(After(pats, s, steps).t)
    decreases |steps|
  {
    if steps != [] {
      StepKeepsCounters(pats, s, steps[0]);
      CountersAlwaysAgree(pats, Next(pats, s, steps[0]), steps[1..]);
    }
  }

  // ---------------------------------------------------------------- line numbers

  /** The line numbers stored for a file, in insertion order. */
  function FileLines(es: seq<Entry>, file: string): seq<nat> {
    if es == [] then []
    else FileLines(es[..|es| - 1], file) + (if es[|es| - 1].file == file then [es[|es| - 1].line] else [])
  }

  predicate Consecutive(lines: seq<nat>) {
    forall k :: 0 <= k < |lines| ==> lines[k] == k + 1
  }

  lemma FileLinesSnoc(es: seq<Entry>, e: Entry, file: string)
    ensures FileLines(es + [e], file) == FileLines(es, file) + (if e.file == file then [e.line] else [])
  {
    assert (es + [e])[..|es + [e]| - 1] == es;
  }

  lemma {:induction false} FileLinesOther(es: seq<Entry>, more: seq<Entry>, file: string)
    requires forall e :: e in more ==> e.file != file
    ensures FileLines(es + more, file) == FileLines(es, file)
    decreases |more|
  {
    if more == [] {
      assert es + more == es;
    } else {
      assert es + more == (es + [more[0]]) + more[1..];
      FileLinesSnoc(es, more[0], file);
      FileLinesOther(es + [more[0]], more[1..], file);
    }
  }

  lemma {:induction false} FileLinesSame(es: seq<Entry>, more: seq<Entry>, file: string)
    requires forall k :: 0 <= k < |more| ==> more[k].file == file && more[k].line == |FileLines(es, file)| + 1 + k
    requires Consecutive(FileLines(es, file))
    ensures Consecutive(FileLines(es + more, file)) && |FileLines(es + more, file)| == |FileLines(es, file)| + |more|
    decreases |more|
  {
    if more == [] {
      assert es + more == es;
    } else {
      assert es + more == (es + [more[0]]) + more[1..];
      FileLinesSnoc(es, more[0], file);
      FileLinesSame(es + [more[0]], more[1..], file);
    }
  }

  /** A tailed line continues the numbering of its file if and only if `total_lines` is the
      number of lines stored, which the caller can read before the call. */
  lemma AppendContinuesNumbersExactly(pats: Patterns, t: Tables, file: string, raw: string)
    requires file in t.files && Consecutive(FileLines(t.entries, file))
    ensures Consecutive(FileLines(Tailed(pats, t, file, raw).entries, file))
            <==> t.files[file].totalLines == |FileLines(t.entries, file)|
  {
    var e := TailEntry(pats, t, file, raw);
    FileLinesSnoc(t.entries, e, file);
    ConsecutiveSnoc(FileLines(t.entries, file), e.line);
  }

  lemma ConsecutiveSnoc(lines: seq<nat>, n: nat)
    requires Consecutive(lines)
    ensures Consecutive(lines + [n]) <==> n == |lines| + 1
  {
    assert (lines + [n])[|lines|] == n;
  }

  ghost predicate JobOk(t: Tables, file: string, job: Job) {
    && job.flushed <= |job.entries| && job.flushed == |FileLines(t.entries, file)|
    && (forall k :: 0 <= k < |job.entries| ==> job.entries[k].file == file && job.entries[k].line == k + 1)
  }

  ghost predicate FileOk(s: State, file: string) {
    && Consecutive(FileLines(s.t.entries, file))
    && (file !in s.t.files ==> FileLines(s.t.entries, file) == [] && file !in s.jobs)
    && (file in s.jobs ==> JobOk(s.t, file, s.jobs[file]))
    && (file in s.t.files && file !in s.jobs && file !in s.stopped ==>
          s.t.files[file].totalLines == |FileLines(s.t.entries, file)|)
  }

  ghost predicate NumbersOk(s: State) {
    forall file :: FileOk(s, file)
  }

  /** Lines are tailed only into files that are not being uploaded and whose upload did not
      stop half-way, as the HTTP handler does. */
  predicate TailsCleanFiles(s: State, step: Step) {
    step.AppendLine? ==> step.file !in s.jobs && step.file !in s.stopped
  }

  ghost predicate CleanRun(pats: Patterns, s: State, steps: seq<Step>)
    requires Run(pats, s, steps)
    decreases |steps|
  {
    steps == [] || (TailsCleanFiles(s, steps[0]) && CleanRun(pats, Next(pats, s, steps[0]), steps[1..]))
  }

  lemma FlushedLines(t: Tables, file: string, job: Job, n: nat)
    requires JobOk(t, file, job) && Consecutive(FileLines(t.entries, file)) && job.flushed + n <= |job.entries|
    ensures var t' := AddEntries(t, job.entries[job.flushed..job.flushed + n]);
            && t'.files == t.files
            && Consecutive(FileLines(t'.entries, file))
            && JobOk(t', file, Job(job.entries, job.flushed + n))
  {
    var batch := job.entries[job.flushed..job.flushed + n];
    AddEntriesRows(t, batch);
    FileLinesSame(t.entries, batch, file);
  }

  lemma FlushKeepsFile(pats: Patterns, s: State, file: string, n: nat)
    requires FileOk(s, file) && Enabled(s, FlushBatch(file, n))
    ensures FileOk(Next(pats, s, FlushBatch(file, n)), file)
  {
    FlushedLines(s.t, file, s.jobs[file], n);
  }

  lemma FlushKeepsOther(pats: Patterns, s: State, file: string, n: nat, f: string)
    requires FileOk(s, file) && FileOk(s, f) && f != file && Enabled(s, FlushBatch(file, n))
    ensures FileOk(Next(pats, s, FlushBatch(file, n)), f)
  {
    var job := s.jobs[file];
    var batch := job.entries[job.flushed..job.flushed + n];
    AddEntriesRows(s.t, batch);
    FileLinesOther(s.t.entries, batch, f);
  }

  lemma FlushKeepsNumbers(pats: Patterns, s: State, file: string, n: nat)
    requires NumbersOk(s) && Enabled(s, FlushBatch(file, n))
    ensures NumbersOk(Next(pats, s, FlushBatch(file, n)))
  {
    forall f
      ensures FileOk(Next(pats, s, FlushBatch(file, n)), f)
    {
      assert FileOk(s, f) && FileOk(s, file);
      if f == file {
        FlushKeepsFile(pats, s, file, n);
      } else {
        FlushKeepsOther(pats, s, file, n, f);
      }
    }
  }

  lemma StartKeepsNumbers(pats: Patterns, s: State, file: string, scope: Scope, lines: seq<string>)
    requires NumbersOk(s) && Enabled(s, StartUpload(file, scope, lines))
    ensures NumbersOk(Next(pats, s, StartUpload(file, scope, lines)))
  {
    var s' := Next(pats, s, StartUpload(file, scope, lines));
    forall f
      ensures FileOk(s', f)
    {
      assert FileOk(s, f);
      if f == file {
        forall k | 0 <= k < |lines|
          ensures s'.jobs[file].entries[k].file == file && s'.jobs[file].entries[k].line == k + 1
        {
          EntriesRaw(pats, file, scope, lines, None, 1, k);
          assert s'.jobs[file].entries[k] in s'.jobs[file].entries;
        }
      }
    }
  }

  lemma AppendKeepsNumbers(pats: Patterns, s: State, file: string, raw: string)
    requires NumbersOk(s) && Enabled(s, AppendLine(file, raw)) && TailsCleanFiles(s, AppendLine(file, raw))
    ensures NumbersOk(Next(pats, s, AppendLine(file, raw)))
  {
    var s' := Next(pats, s, AppendLine(file, raw));
    assert FileOk(s, file);
    AppendContinuesNumbersExactly(pats, s.t, file, raw);
    forall f
      ensures FileOk(s', f)
    {
      assert FileOk(s, f);
      FileLinesSnoc(s.t.entries, TailEntry(pats, s.t, file, raw), f);
    }
  }

  lemma StepKeepsNumbers(pats: Patterns, s: State, step: Step)
    requires NumbersOk(s) && Enabled(s, step) && TailsCleanFiles(s, step)
    ensures NumbersOk(Next(pats, s, step))
  {
    match step
    case FlushBatch(file, n) => FlushKeepsNumbers(pats, s, file, n);
    case StartUpload(file, scope, lines) => StartKeepsNumbers(pats, s, file, scope, lines);
    case AppendLine(file, raw) => AppendKeepsNumbers(pats, s, file, raw);
    case CreateTail(_, _) => OtherKeepsNumbers(pats, s, step);
    case StopUpload(_) => OtherKeepsNumbers(pats, s, step);
    case FinishUpload(_) => OtherKeepsNumbers(pats, s, step);
  }

  lemma OtherKeepsNumbers(pats: Patterns, s: State, step: Step)
    requires NumbersOk(s) && Enabled(s, step) && (step.CreateTail? || step.StopUpload? || step.FinishUpload?)
    ensures NumbersOk(Next(pats, s, step))
  {
    forall f
      ensures FileOk(Next(pats, s, step), f)
    {
      assert FileOk(s, f);
    }
  }

  /** In every run in which lines are tailed only into clean files, each file's stored lines
      are numbered 1, 2, 3, ... in insertion order, without gaps or repetitions. */
  lemma {:induction false} LinesAreNumbered(pats: Patterns, s: State, steps: seq<Step>)
    requires NumbersOk(s) && Run(pats, s, steps) && CleanRun(pats, s, steps)
    ensures NumbersOk(After(pats, s, steps))
    ensures forall file :: Consecutive(FileLines(After(pats, s, steps).t.entries, file))
    decreases |steps|
  {
    if steps == [] {
      forall file
        ensures Consecutive(FileLines(s.t.entries, file))
      {
        assert FileOk(s, file);
      }
    } else {
      StepKeepsNumbers(pats, s, steps[0]);
      LinesAreNumbered(pats, Next(pats, s, steps[0]), steps[1..]);
    }
  }

  // ---------------------------------------------------------------- exactly when numbers stay right

  /** Every file's stored lines are numbered 1, 2, 3, ... */
  ghost predicate AllConsecutive(s: State) {
    forall file :: Consecutive(FileLines(s.t.entries, file))
  }

  /** The lines of each upload in progress are its file's, numbered from 1. */
  ghost predicate JobsNumbered(s: State) {
    forall file :: file in s.jobs ==> JobNumbered(file, s.jobs[file])
  }

  ghost predicate JobNumbered(file: string, job: Job) {
    job.flushed <= |job.entries|
    && forall k :: 0 <= k < |job.entries| ==> job.entries[k].file == file && job.entries[k].line == k + 1
  }

  /** The step writes on from the last line stored: a tailed line if the recorded total is the
      number of lines stored, a batch if as many lines are stored as the upload has written. */
  predicate Continues(s: State, step: Step)
    requires Enabled(s, step)
  {
    match step
    case AppendLine(file, _) => s.t.files[file].totalLines == |FileLines(s.t.entries, file)|
    case FlushBatch(file, n) => n == 0 || s.jobs[file].flushed == |FileLines(s.t.entries, file)|
    case CreateTail(_, _) => true
    case StartUpload(_, _, _) => true
    case StopUpload(_) => true
    case FinishUpload(_) => true
  }

  lemma {:induction false} FirstNewLine(es: seq<Entry>, more: seq<Entry>, file: string)
    requires more != [] && forall e :: e in more ==> e.file == file
    ensures |FileLines(es + more, file)| == |FileLines(es, file)| + |more|
    ensures FileLines(es + more, file)[|FileLines(es, file)|] == more[0].line
    decreases |more|
  {
    var front, last := more[..|more| - 1], more[|more| - 1];
    assert es + more == (es + front) + [last];
    FileLinesSnoc(es + front, last, file);
    if front == [] {
      assert es + front == es;
    } else {
      FirstNewLine(es, front, file);
    }
  }

  /** A batch keeps its file consecutive exactly if it begins with the next number. */
  lemma BatchContinuesExactly(es: seq<Entry>, batch: seq<Entry>, file: string, n: nat)
    requires Consecutive(FileLines(es, file)) && batch != []
    requires forall k :: 0 <= k < |batch| ==> batch[k].file == file && batch[k].line == n + k + 1
    ensures Consecutive(FileLines(es + batch, file)) <==> n == |FileLines(es, file)|
  {
    FirstNewLine(es, batch, file);
    if n == |FileLines(es, file)| {
      FileLinesSame(es, batch, file);
    }
  }

  lemma FlushExactly(pats: Patterns, s: State, file: string, n: nat)
    requires AllConsecutive(s) && JobsNumbered(s) && Enabled(s, FlushBatch(file, n))
    ensures AllConsecutive(Next(pats, s, FlushBatch(file, n))) <==> Continues(s, FlushBatch(file, n))
  {
    var job := s.jobs[file];
    var batch := job.entries[job.flushed..job.flushed + n];
    var s' := Next(pats, s, FlushBatch(file, n));
    AddEntriesRows(s.t, batch);
    if n == 0 {
      assert s.t.entries + batch == s.t.entries;
    } else {
      assert JobNumbered(file, job);
      BatchContinuesExactly(s.t.entries, batch, file, job.flushed);
      forall f | f != file
        ensures FileLines(s'.t.entries, f) == FileLines(s.t.entries, f)
      {
        FileLinesOther(s.t.entries, batch, f);
      }
    }
  }

  lemma AppendExactly(pats: Patterns, s: State, file: string, raw: string)
    requires AllConsecutive(s) && Enabled(s, AppendLine(file, raw))
    ensures AllConsecutive(Next(pats, s, AppendLine(file, raw))) <==> Continues(s, AppendLine(file, raw))
  {
    AppendContinuesNumbersExactly(pats, s.t, file, raw);
    forall f | f != file
      ensures FileLines(Next(pats, s, AppendLine(file, raw)).t.entries, f) == FileLines(s.t.entries, f)
    {
      FileLinesSnoc(s.t.entries, TailEntry(pats, s.t, file, raw), f);
    }
  }

  lemma StepContinuesExactly(pats: Patterns, s: State, step: Step)
    requires AllConsecutive(s) && JobsNumbered(s) && Enabled(s, step)
    ensures AllConsecutive(Next(pats, s, step)) <==> Continues(s, step)
  {
    match step
    case FlushBatch(file, n) => FlushExactly(pats, s, file, n);
    case AppendLine(file, raw) => AppendExactly(pats, s, file, raw);
    case CreateTail(_, _) =>
    case StartUpload(_, _, _) =>
    case StopUpload(_) =>
    case FinishUpload(_) =>
  }

  lemma StepKeepsJobs(pats: Patterns, s: State, step: Step)
    requires JobsNumbered(s) && Enabled(s, step)
    ensures JobsNumbered(Next(pats, s, step))
  {
    var s' := Next(pats, s, step);
    forall file | file in s'.jobs
      ensures JobNumbered(file, s'.jobs[file])
    {
      if step.StartUpload? && file == step.file {
        forall k | 0 <= k < |step.lines|
          ensures s'.jobs[file].entries[k].file == file && s'.jobs[file].entries[k].line == k + 1
        {
          EntriesRaw(pats, file, step.scope, step.lines, None, 1, k);
          assert s'.jobs[file].entries[k] in s'.jobs[file].entries;
        }
      } else {
        assert JobNumbered(file, s.jobs[file]);
      }
    }
  }

  /** At every point of the run every file is consecutive. */
  ghost predicate StaysConsecutive(pats: Patterns, s: State, steps: seq<Step>)
    requires Run(pats, s, steps)
    decreases |steps|
  {
    AllConsecutive(s) && (steps == [] || StaysConsecutive(pats, Next(pats, s, steps[0]), steps[1..]))
  }

  ghost predicate ContinuingRun(pats: Patterns, s: State, steps: seq<Step>)
    requires Run(pats, s, steps)
    decreases |steps|
  {
    steps == [] || (Continues(s, steps[0]) && ContinuingRun(pats, Next(pats, s, steps[0]), steps[1..]))
  }

  /** In any interleaving of uploads and tails, the lines of every file are numbered without gaps
      or repetitions at every point if and only if every step of the run writes on from the last
      line stored. */
  lemma {:induction false} RunsNumberExactly(pats: Patterns, s: State, steps: seq<Step>)
    requires AllConsecutive(s) && JobsNumbered(s) && Run(pats, s, steps)
    ensures StaysConsecutive(pats, s, steps) <==> ContinuingRun(pats, s, steps)
    decreases |steps|
  {
    if steps != [] {
      var s' := Next(pats, s, steps[0]);
      StepContinuesExactly(pats, s, steps[0]);
      StepKeepsJobs(pats, s, steps[0]);
      if Continues(s, steps[0]) {
        RunsNumberExactly(pats, s', steps[1..]);
      } else {
        assert !StaysConsecutive(pats, s', steps[1..]);
      }
    }
  }

  lemma EmptyIsOk()
    ensures CountersAgree(EMPTY.t) && NumbersOk(EMPTY) && AllConsecutive(EMPTY) && JobsNumbered(EMPTY)
  {
  }

  lemma RunCons(pats: Patterns, s: State, step: Step, rest: seq<Step>) returns (steps: seq<Step>)
    requires Enabled(s, step) && Run(pats, Next(pats, s, step), rest)
    ensures Run(pats, s, steps) && After(pats, s, steps) == After(pats, Next(pats, s, step), rest)
  {
    steps := [step] + rest;
    assert steps[1..] == rest;
  }

  /** The condition is needed: the store itself accepts a line for an upload that stopped
      after its first batch, and then the file has two lines numbered 1. */
  lemma StoppedUploadRepeatsNumbers(pats: Patterns, scope: Scope, first: string, tailed: string) returns (steps: seq<Step>)
    ensures Run(pats, EMPTY, steps)
    ensures FileLines(After(pats, EMPTY, steps).t.entries, "f") == [1, 1]
  {
    var s1 := Next(pats, EMPTY, StartUpload("f", scope, [first]));
    var s2 := Next(pats, s1, FlushBatch("f", 1));
    var s3 := Next(pats, s2, StopUpload("f"));
    FirstBatch(pats, scope, first, s1.t, s1.jobs["f"].entries);
    assert s1.jobs["f"].entries[0..1] == s1.jobs["f"].entries;
    FileLinesSnoc(s3.t.entries, TailEntry(pats, s3.t, "f", tailed), "f");
    steps := RunCons(pats, s3, AppendLine("f", tailed), []);
    steps := RunCons(pats, s2, StopUpload("f"), steps);
    steps := RunCons(pats, s1, FlushBatch("f", 1), steps);
    steps := RunCons(pats, EMPTY, StartUpload("f", scope, [first]), steps);
  }

  lemma BatchAfterLine(pats: Patterns, scope: Scope, first: string, t: Tables, es: seq<Entry>, line: Entry)
    requires es == Entries(pats, "f", scope, [first], None, 1)
    requires t.entries == [line] && line.file == "f" && line.line == 1
    ensures FileLines(AddEntries(t, es).entries, "f") == [1, 1]
  {
    EntriesRaw(pats, "f", scope, [first], None, 1, 0);
    assert es[0] in es;
    AddEntriesRows(t, es);
    assert t.entries + es == [line] + [es[0]];
    FileLinesSnoc([], line, "f");
    FileLinesSnoc([line], es[0], "f");
    assert [] + [line] == [line];
  }

  /** A line tailed into an upload before its first batch: the line continues the numbering, and
      the batch written later repeats it. */
  lemma TailedBeforeBatchRepeatsNumbers(pats: Patterns, scope: Scope, first: string, tailed: string) returns (steps: seq<Step>)
    ensures Run(pats, EMPTY, steps)
    ensures FileLines(After(pats, EMPTY, steps).t.entries, "f") == [1, 1]
  {
    var s1 := Next(pats, EMPTY, StartUpload("f", scope, [first]));
    var s2 := Next(pats, s1, AppendLine("f", tailed));
    var line, es := TailEntry(pats, s1.t, "f", tailed), s1.jobs["f"].entries;
    assert es[0..1] == es;
    assert s2.t.entries == [line];
    BatchAfterLine(pats, scope, first, s2.t, es, line);
    steps := RunCons(pats, s2, FlushBatch("f", 1), []);
    steps := RunCons(pats, s1, AppendLine("f", tailed), steps);
    steps := RunCons(pats, EMPTY, StartUpload("f", scope, [first]), steps);
  }

  lemma FirstBatch(pats: Patterns, scope: Scope, first: string, t: Tables, es: seq<Entry>)
    requires es == Entries(pats, "f", scope, [first], None, 1) && t.entries == []
    ensures FileLines(AddEntries(t, es).entries, "f") == [1] && AddEntries(t, es).files == t.files
  {
    EntriesRaw(pats, "f", scope, [first], None, 1, 0);
    assert es[0] in es;
    AddEntriesRows(t, es);
    assert t.entries + es == [] + [es[0]];
    FileLinesSnoc([], es[0], "f");
  }
}
