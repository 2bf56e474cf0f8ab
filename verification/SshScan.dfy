/** The bounded search for log files on a remote host, api/internal/sshlog/service.go. */
module SshScan {
  import opened Sequences
  import opened Wrappers
  import opened Sorting
  import opened Text

  datatype Kind = Directory | Regular | Other

  datatype File = File(name: string, kind: Kind, size: int, modifiedAt: int)

  datatype Entry = Entry(name: string, path: string, size: int, modifiedAt: int)

  /** The host: `read` lists a directory or fails, `order` is what the sort makes of a listing. */
  datatype Remote = Remote(read: string -> Option<seq<File>>, order: seq<File> -> seq<File>)

  datatype Limits = Limits(maxDepth: nat, maxFiles: nat)

  datatype Found = Found(entries: seq<Entry>, truncated: bool)

  function EndsWith(s: string, suffix: string): bool {
    |suffix| <= |s| && s[|s| - |suffix|..] == suffix
  }

  predicate IsLogFile(name: string) {
    var lower := Lower(name);
    EndsWith(lower, ".log") || EndsWith(lower, ".txt") || EndsWith(lower, ".out") || EndsWith(lower, ".err")
  }

  /** `path.Join` of a clean directory and a plain name. */
  function NextPath(dir: string, name: string): string {
    if dir == "/" then dir + name else dir + "/" + name
  }

  predicate IsDots(name: string) {
    name == "." || name == ".."
  }

  predicate Wanted(file: File) {
    file.kind == Regular && IsLogFile(file.name)
  }

  function EntryFor(dir: string, file: File): Entry {
    Entry(file.name, NextPath(dir, file.name), file.size, file.modifiedAt)
  }

  // ---------------------------------------------------------------- the plain listing

  /** The log files at or below a directory, directories first, down to the depth limit. An
      unreadable directory counts as empty. */
  function Listing(r: Remote, dir: string, depth: nat, maxDepth: nat): seq<Entry>
    decreases maxDepth + 1 - depth, 1, 0
  {
    if depth > maxDepth then []
    else
      match r.read(dir)
      case None => []
      case Some(files) => ListFiles(r, dir, r.order(files), depth, maxDepth)
  }

  function ListFiles(r: Remote, dir: string, files: seq<File>, depth: nat, maxDepth: nat): seq<Entry>
    requires depth <= maxDepth
    decreases maxDepth + 1 - depth, 0, |files|
  {
    if files == [] then []
    else
      (if IsDots(files[0].name) then []
       else if files[0].kind == Directory then Listing(r, NextPath(dir, files[0].name), depth + 1, maxDepth)
       else if Wanted(files[0]) then [EntryFor(dir, files[0])]
       else [])
      + ListFiles(r, dir, files[1..], depth, maxDepth)
  }

  // ---------------------------------------------------------------- the walk

  function Walked(r: Remote, limits: Limits, dir: string, depth: nat, s: Found): Found
    requires depth <= limits.maxDepth + 1
    decreases limits.maxDepth + 1 - depth, 1, 0
  {
    if depth > limits.maxDepth || |s.entries| >= limits.maxFiles then s.(truncated := true)
    else
      match r.read(dir)
      case None => s
      case Some(files) => WalkedFiles(r, limits, dir, r.order(files), depth, s)
  }

  function WalkedFiles(r: Remote, limits: Limits, dir: string, files: seq<File>, depth: nat, s: Found): Found
    requires depth <= limits.maxDepth
    decreases limits.maxDepth + 1 - depth, 0, |files|
  {
    if files == [] then s
    else if |s.entries| >= limits.maxFiles then s.(truncated := true)
    else if IsDots(files[0].name) then WalkedFiles(r, limits, dir, files[1..], depth, s)
    else if files[0].kind == Directory then
      WalkedFiles(r, limits, dir, files[1..], depth, Walked(r, limits, NextPath(dir, files[0].name), depth + 1, s))
    else if Wanted(files[0]) then
      WalkedFiles(r, limits, dir, files[1..], depth, s.(entries := s.entries + [EntryFor(dir, files[0])]))
    else WalkedFiles(r, limits, dir, files[1..], depth, s)
  }

  /** The closure `walk` and the result it fills. `cancelled(k)` says whether the context is
      cancelled at its k-th look. */
  class Walker {
    const remote: Remote
    const limits: Limits
    const cancelled: nat -> bool
    var entries: seq<Entry>
    var truncated: bool
    var looks: nat

    constructor (remote: Remote, limits: Limits, cancelled: nat -> bool)
      ensures this.remote == remote && this.limits == limits && this.cancelled == cancelled
      ensures entries == [] && !truncated
    {
      this.remote, this.limits, this.cancelled := remote, limits, cancelled;
      entries, truncated, looks := [], false, 0;
    }

    function State(): Found
      reads this
    {
      Found(entries, truncated)
    }

    method Walk(dir: string, depth: nat) returns (ok: bool)
      requires depth <= limits.maxDepth + 1
      modifies this
      ensures ok ==> State() == Walked(remote, limits, dir, depth, old(State()))
      ensures !ok ==> exists k :: cancelled(k)
      decreases limits.maxDepth + 1 - depth
    {
      if cancelled(looks) {
        return false;
      }
      looks := looks + 1;
      if depth > limits.maxDepth || |entries| >= limits.maxFiles {
        truncated := true;
        return true;
      }
      var listing := remote.read(dir);
      if listing.None? {
        return true;
      }
      var files := remote.order(listing.value);
      for i := 0 to |files|
        invariant WalkedFiles(remote, limits, dir, files[i..], depth, State())
               == WalkedFiles(remote, limits, dir, files, depth, old(State()))
      {
        assert files[i..][0] == files[i] && files[i..][1..] == files[i + 1..];
        if |entries| >= limits.maxFiles {
          truncated := true;
          return true;
        }
        var file := files[i];
        if IsDots(file.name) {
          continue;
        }
        if file.kind == Directory {
          var walked := Walk(NextPath(dir, file.name), depth + 1);
          if !walked {
            return false;
          }
          continue;
        }
        if Wanted(file) {
          entries := entries + [EntryFor(dir, file)];
        }
      }
      return true;
    }
  }

  // ---------------------------------------------------------------- the walk step by step

  /** A look of the walk: into a directory, at one below the depth limit, or at a file. */
  datatype Event = Enter | TooDeep | See(entry: Option<Entry>)

  function Trace(r: Remote, dir: string, depth: nat, maxDepth: nat): (events: seq<Event>)
    ensures events != []
    decreases maxDepth + 1 - depth, 1, 0
  {
    if depth > maxDepth then [TooDeep]
    else
      match r.read(dir)
      case None => [Enter]
      case Some(files) => [Enter] + TraceFiles(r, dir, r.order(files), depth, maxDepth)
  }

  function TraceFile(r: Remote, dir: string, file: File, depth: nat, maxDepth: nat): seq<Event>
    requires depth <= maxDepth
    decreases maxDepth + 1 - depth, 0, 0
  {
    if IsDots(file.name) then [See(None)]
    else if file.kind == Directory then [See(None)] + Trace(r, NextPath(dir, file.name), depth + 1, maxDepth)
    else if Wanted(file) then [See(Some(EntryFor(dir, file)))]
    else [See(None)]
  }

  function TraceFiles(r: Remote, dir: string, files: seq<File>, depth: nat, maxDepth: nat): seq<Event>
    requires depth <= maxDepth
    decreases maxDepth + 1 - depth, 0, |files| + 1
  {
    if files == [] then [] else TraceFile(r, dir, files[0], depth, maxDepth) + TraceFiles(r, dir, files[1..], depth, maxDepth)
  }

  function SeenOf(e: Event): seq<Entry> {
    if e.See? && e.entry.Some? then [e.entry.value] else []
  }

  /** One look with room left. */
  function Look(s: Found, e: Event): Found {
    Found(s.entries + SeenOf(e), s.truncated || e == TooDeep)
  }

  /** The looks taken until the result is full; one more look marks it truncated. */
  function Fold(s: Found, events: seq<Event>, maxFiles: nat): Found
    decreases |events|
  {
    if events == [] then s
    else if |s.entries| >= maxFiles then s.(truncated := true)
    else Fold(Look(s, events[0]), events[1..], maxFiles)
  }

  lemma {:induction false} FoldAppend(s: Found, a: seq<Event>, b: seq<Event>, maxFiles: nat)
    ensures Fold(s, a + b, maxFiles) == Fold(Fold(s, a, maxFiles), b, maxFiles)
    decreases |a|
  {
    if a == [] {
      assert a + b == b;
    } else if |s.entries| < maxFiles {
      assert (a + b)[1..] == a[1..] + b;
      FoldAppend(Look(s, a[0]), a[1..], b, maxFiles);
    }
  }

  lemma FoldOne(s: Found, e: Event, maxFiles: nat)
    ensures Fold(s, [e], maxFiles)
         == if |s.entries| >= maxFiles || e == TooDeep then s.(truncated := true)
            else if e.See? && e.entry.Some? then s.(entries := s.entries + [e.entry.value])
            else s
    ensures |s.entries| < maxFiles ==> Fold(s, [e], maxFiles) == Look(s, e)
  {
    assert [e][1..] == [];
  }

  lemma {:induction false} WalkIsFold(r: Remote, limits: Limits, dir: string, depth: nat, s: Found)
    requires depth <= limits.maxDepth + 1
    ensures Walked(r, limits, dir, depth, s) == Fold(s, Trace(r, dir, depth, limits.maxDepth), limits.maxFiles)
    decreases limits.maxDepth + 1 - depth, 1, 0
  {
    if depth > limits.maxDepth {
      FoldOne(s, TooDeep, limits.maxFiles);
    } else if |s.entries| < limits.maxFiles {
      FoldOne(s, Enter, limits.maxFiles);
      var listing := r.read(dir);
      if listing.Some? {
        var files := r.order(listing.value);
        FoldAppend(s, [Enter], TraceFiles(r, dir, files, depth, limits.maxDepth), limits.maxFiles);
        FilesAreFold(r, limits, dir, files, depth, s);
      }
    }
  }

  lemma {:induction false} FilesAreFold(r: Remote, limits: Limits, dir: string, files: seq<File>, depth: nat, s: Found)
    requires depth <= limits.maxDepth
    ensures WalkedFiles(r, limits, dir, files, depth, s)
         == Fold(s, TraceFiles(r, dir, files, depth, limits.maxDepth), limits.maxFiles)
    decreases limits.maxDepth + 1 - depth, 0, |files| + 1
  {
    if files != [] {
      var first := TraceFile(r, dir, files[0], depth, limits.maxDepth);
      FoldAppend(s, first, TraceFiles(r, dir, files[1..], depth, limits.maxDepth), limits.maxFiles);
      if |s.entries| >= limits.maxFiles {
        FullStays(s, TraceFiles(r, dir, files, depth, limits.maxDepth), limits.maxFiles);
      } else {
        var next := FileIsFold(r, limits, dir, files[0], depth, s);
        FilesAreFold(r, limits, dir, files[1..], depth, next);
      }
    }
  }

  lemma FullStays(s: Found, events: seq<Event>, maxFiles: nat)
    requires |s.entries| >= maxFiles && events != []
    ensures Fold(s, events, maxFiles) == s.(truncated := true)
  {
  }

  /** What one file does to a result that is not full. */
  lemma {:induction false} FileIsFold(r: Remote, limits: Limits, dir: string, file: File, depth: nat, s: Found) returns (next: Found)
    requires depth <= limits.maxDepth && |s.entries| < limits.maxFiles
    ensures next == Fold(s, TraceFile(r, dir, file, depth, limits.maxDepth), limits.maxFiles)
    ensures next == if IsDots(file.name) then s
                    else if file.kind == Directory then Walked(r, limits, NextPath(dir, file.name), depth + 1, s)
                    else if Wanted(file) then s.(entries := s.entries + [EntryFor(dir, file)])
                    else s
    decreases limits.maxDepth + 1 - depth, 0, 0
  {
    next := Fold(s, TraceFile(r, dir, file, depth, limits.maxDepth), limits.maxFiles);
    FoldOne(s, See(None), limits.maxFiles);
    FoldOne(s, See(Some(EntryFor(dir, file))), limits.maxFiles);
    if !IsDots(file.name) && file.kind == Directory {
      FoldAppend(s, [See(None)], Trace(r, NextPath(dir, file.name), depth + 1, limits.maxDepth), limits.maxFiles);
      WalkIsFold(r, limits, NextPath(dir, file.name), depth + 1, s);
    }
  }

  // ---------------------------------------------------------------- what a fold finds

  function Seen(events: seq<Event>): seq<Entry> {
    if events == [] then []
    else SeenOf(events[0]) + Seen(events[1..])
  }

  lemma {:induction false} SeenAppend(a: seq<Event>, b: seq<Event>)
    ensures Seen(a + b) == Seen(a) + Seen(b)
  {
    if a == [] {
      assert a + b == b;
    } else {
      assert (a + b)[1..] == a[1..] + b;
      SeenAppend(a[1..], b);
    }
  }

  function Take<T>(s: seq<T>, n: nat): seq<T> {
    if |s| <= n then s else s[..n]
  }

  lemma TakeFull<T>(s: seq<T>, t: seq<T>)
    ensures Take(s + t, |s|) == s
  {
    assert (s + t)[..|s|] == s;
    if t == [] {
      assert s + t == s;
    }
  }

  lemma {:induction false} FoldEntries(s: Found, events: seq<Event>, maxFiles: nat)
    requires |s.entries| <= maxFiles
    ensures Fold(s, events, maxFiles).entries == Take(s.entries + Seen(events), maxFiles)
    decreases |events|
  {
    if events == [] {
      assert s.entries + Seen(events) == s.entries;
    } else if |s.entries| == maxFiles {
      TakeFull(s.entries, Seen(events));
    } else {
      FoldEntries(Look(s, events[0]), events[1..], maxFiles);
      Reassociate(s.entries, SeenOf(events[0]), Seen(events[1..]));
    }
  }

  /** A result is marked truncated exactly when a look goes below the depth limit or is taken
      with the result already full. */
  lemma {:induction false} FoldTruncatedExactly(s: Found, events: seq<Event>, maxFiles: nat)
    requires |s.entries| <= maxFiles
    ensures Fold(s, events, maxFiles).truncated
       <==> s.truncated || TooDeep in events || (events != [] && |s.entries| + |Seen(Init(events))| >= maxFiles)
    decreases |events|
  {
    if events != [] && |s.entries| < maxFiles {
      FoldTruncatedExactly(Look(s, events[0]), events[1..], maxFiles);
      if events[1..] == [] {
        assert Init(events) == [];
      } else {
        assert Init(events)[1..] == Init(events[1..]);
      }
    }
  }

  lemma {:induction false} TraceLists(r: Remote, dir: string, depth: nat, maxDepth: nat)
    ensures Seen(Trace(r, dir, depth, maxDepth)) == Listing(r, dir, depth, maxDepth)
    decreases maxDepth + 1 - depth, 1, 0
  {
    if depth <= maxDepth {
      var listing := r.read(dir);
      if listing.Some? {
        var files := r.order(listing.value);
        SeenAppend([Enter], TraceFiles(r, dir, files, depth, maxDepth));
        FilesList(r, dir, files, depth, maxDepth);
      }
    }
  }

  lemma {:induction false} FilesList(r: Remote, dir: string, files: seq<File>, depth: nat, maxDepth: nat)
    requires depth <= maxDepth
    ensures Seen(TraceFiles(r, dir, files, depth, maxDepth)) == ListFiles(r, dir, files, depth, maxDepth)
    decreases maxDepth + 1 - depth, 0, |files| + 1
  {
    if files != [] {
      SeenAppend(TraceFile(r, dir, files[0], depth, maxDepth), TraceFiles(r, dir, files[1..], depth, maxDepth));
      FilesList(r, dir, files[1..], depth, maxDepth);
      FileLists(r, dir, files[0], depth, maxDepth);
    }
  }

  lemma {:induction false} FileLists(r: Remote, dir: string, file: File, depth: nat, maxDepth: nat)
    requires depth <= maxDepth
    ensures Seen(TraceFile(r, dir, file, depth, maxDepth))
         == if IsDots(file.name) then []
            else if file.kind == Directory then Listing(r, NextPath(dir, file.name), depth + 1, maxDepth)
            else if Wanted(file) then [EntryFor(dir, file)]
            else []
    decreases maxDepth + 1 - depth, 0, 0
  {
    if !IsDots(file.name) && file.kind == Directory {
      TraceLists(r, NextPath(dir, file.name), depth + 1, maxDepth);
      SeenAppend([See(None)], Trace(r, NextPath(dir, file.name), depth + 1, maxDepth));
      assert Seen([See(None)]) == [];
    }
  }

  /** A listing that never meets its depth limit is the same under every larger limit. */
  lemma {:induction false} ShallowIsComplete(r: Remote, dir: string, depth: nat, maxDepth: nat, larger: nat)
    requires maxDepth <= larger && TooDeep !in Trace(r, dir, depth, maxDepth)
    ensures Trace(r, dir, depth, larger) == Trace(r, dir, depth, maxDepth)
    decreases maxDepth + 1 - depth, 1, 0
  {
    var listing := r.read(dir);
    if listing.Some? {
      ShallowFiles(r, dir, r.order(listing.value), depth, maxDepth, larger);
    }
  }

  lemma {:induction false} ShallowFiles(r: Remote, dir: string, files: seq<File>, depth: nat, maxDepth: nat, larger: nat)
    requires depth <= maxDepth <= larger && TooDeep !in TraceFiles(r, dir, files, depth, maxDepth)
    ensures TraceFiles(r, dir, files, depth, larger) == TraceFiles(r, dir, files, depth, maxDepth)
    decreases maxDepth + 1 - depth, 0, |files|
  {
    if files != [] {
      var file := files[0];
      if !IsDots(file.name) && file.kind == Directory {
        ShallowIsComplete(r, NextPath(dir, file.name), depth + 1, maxDepth, larger);
      }
      ShallowFiles(r, dir, files[1..], depth, maxDepth, larger);
    }
  }

  // ---------------------------------------------------------------- what the listing holds

  /** The comparison of the sort: directories first, then names without case. */
  predicate Before(a: File, b: File) {
    if (a.kind == Directory) != (b.kind == Directory) then a.kind == Directory else Le(Lower(a.name), Lower(b.name))
  }

  /** `order` sorts. Equal names may come in any order, as the sort is not stable. */
  ghost predicate Sorts(r: Remote) {
    forall files :: multiset(r.order(files)) == multiset(files) && IsSorted(r.order(files), Before)
  }

  predicate InDirectory(r: Remote, dir: string, file: File) {
    r.read(dir).Some? && file in r.read(dir).value && !IsDots(file.name)
  }

  /** The log file `e` lies below `dir`, through the directories `names`. */
  ghost predicate LogAt(r: Remote, dir: string, names: seq<string>, e: Entry)
    decreases |names|
  {
    if names == [] then exists file :: InDirectory(r, dir, file) && Wanted(file) && EntryFor(dir, file) == e
    else (exists file :: InDirectory(r, dir, file) && file.kind == Directory && file.name == names[0])
         && LogAt(r, NextPath(dir, names[0]), names[1..], e)
  }

  /** What one file puts into the listing. */
  function Piece(r: Remote, dir: string, file: File, depth: nat, maxDepth: nat): seq<Entry>
    requires depth <= maxDepth
  {
    if IsDots(file.name) then []
    else if file.kind == Directory then Listing(r, NextPath(dir, file.name), depth + 1, maxDepth)
    else if Wanted(file) then [EntryFor(dir, file)]
    else []
  }

  lemma {:induction false} InSomePiece(r: Remote, dir: string, files: seq<File>, depth: nat, maxDepth: nat, e: Entry)
    requires depth <= maxDepth
    ensures e in ListFiles(r, dir, files, depth, maxDepth) <==> exists file :: file in files && e in Piece(r, dir, file, depth, maxDepth)
  {
    if files != [] {
      InSomePiece(r, dir, files[1..], depth, maxDepth, e);
      assert ListFiles(r, dir, files, depth, maxDepth)
          == Piece(r, dir, files[0], depth, maxDepth) + ListFiles(r, dir, files[1..], depth, maxDepth);
      if e in Piece(r, dir, files[0], depth, maxDepth) {
        assert files[0] in files;
      }
      assert forall file :: file in files <==> file == files[0] || file in files[1..];
    }
  }

  lemma InDirectoryPiece(r: Remote, dir: string, depth: nat, maxDepth: nat, e: Entry)
    requires Sorts(r) && depth <= maxDepth
    ensures e in Listing(r, dir, depth, maxDepth)
       <==> exists file :: InDirectory(r, dir, file) && e in Piece(r, dir, file, depth, maxDepth)
  {
    if r.read(dir).Some? {
      var files := r.read(dir).value;
      InSomePiece(r, dir, r.order(files), depth, maxDepth, e);
      MultisetMembers(r.order(files), files);
    }
  }

  /** The listing holds exactly the log files that lie through at most `maxDepth - depth`
      directories, whatever order equal names are put in. */
  lemma {:induction false} ListingIsReach(r: Remote, dir: string, depth: nat, maxDepth: nat, e: Entry)
    requires Sorts(r) && depth <= maxDepth + 1
    ensures e in Listing(r, dir, depth, maxDepth) <==> exists names :: |names| + depth <= maxDepth && LogAt(r, dir, names, e)
    decreases maxDepth + 1 - depth
  {
    if depth <= maxDepth {
      InDirectoryPiece(r, dir, depth, maxDepth, e);
      if e in Listing(r, dir, depth, maxDepth) {
        var file :| InDirectory(r, dir, file) && e in Piece(r, dir, file, depth, maxDepth);
        Reached(r, dir, depth, maxDepth, e, file);
      }
      if names :| |names| + depth <= maxDepth && LogAt(r, dir, names, e) {
        Listed(r, dir, depth, maxDepth, e, names);
      }
    }
  }

  lemma {:induction false} Reached(r: Remote, dir: string, depth: nat, maxDepth: nat, e: Entry, file: File)
    requires Sorts(r) && depth <= maxDepth && InDirectory(r, dir, file) && e in Piece(r, dir, file, depth, maxDepth)
    ensures exists names :: |names| + depth <= maxDepth && LogAt(r, dir, names, e)
    decreases maxDepth + 1 - depth, 0
  {
    if file.kind == Directory {
      ListingIsReach(r, NextPath(dir, file.name), depth + 1, maxDepth, e);
      var below :| |below| + depth + 1 <= maxDepth && LogAt(r, NextPath(dir, file.name), below, e);
      var names := [file.name] + below;
      assert names[1..] == below && |names| + depth <= maxDepth && LogAt(r, dir, names, e);
    } else {
      var names: seq<string> := [];
      assert |names| + depth <= maxDepth && LogAt(r, dir, names, e);
    }
  }

  lemma {:induction false} Listed(r: Remote, dir: string, depth: nat, maxDepth: nat, e: Entry, names: seq<string>)
    requires Sorts(r) && |names| + depth <= maxDepth && LogAt(r, dir, names, e)
    ensures e in Listing(r, dir, depth, maxDepth)
    decreases maxDepth + 1 - depth, 0
  {
    if names == [] {
      var file :| InDirectory(r, dir, file) && Wanted(file) && EntryFor(dir, file) == e;
      PieceListed(r, dir, depth, maxDepth, e, file);
    } else {
      var file :| InDirectory(r, dir, file) && file.kind == Directory && file.name == names[0];
      ListingIsReach(r, NextPath(dir, file.name), depth + 1, maxDepth, e);
      assert |names[1..]| + (depth + 1) <= maxDepth;
      PieceListed(r, dir, depth, maxDepth, e, file);
    }
  }

  lemma PieceListed(r: Remote, dir: string, depth: nat, maxDepth: nat, e: Entry, file: File)
    requires Sorts(r) && depth <= maxDepth && InDirectory(r, dir, file) && e in Piece(r, dir, file, depth, maxDepth)
    ensures e in Listing(r, dir, depth, maxDepth)
  {
    InDirectoryPiece(r, dir, depth, maxDepth, e);
  }

  // ---------------------------------------------------------------- each file once

  /** No directory names a file twice, and names are plain. */
  ghost predicate PlainDirectories(r: Remote) {
    forall dir :: r.read(dir).Some? ==> DistinctFiles(r.read(dir).value) && PlainFiles(r.read(dir).value)
  }

  ghost predicate DistinctFiles(files: seq<File>) {
    forall i, j :: 0 <= i < j < |files| ==> files[i].name != files[j].name
  }

  ghost predicate PlainFiles(files: seq<File>) {
    forall file :: file in files ==> file.name != "" && '/' !in file.name
  }

  /** What entries of the directory begin with. */
  function Within(dir: string): string {
    if dir == "/" then dir else dir + "/"
  }

  predicate StartsWith(s: string, prefix: string) {
    |prefix| <= |s| && s[..|prefix|] == prefix
  }

  /** The path is that of the file `name`, or lies below it. */
  predicate Through(path: string, within: string, name: string) {
    path == within + name || StartsWith(path, within + name + "/")
  }

  lemma NameInPath(path: string, within: string, name: string)
    requires Through(path, within, name)
    ensures |path| >= |within| + |name| && path[|within|..|within| + |name|] == name
    ensures |path| > |within| + |name| ==> path[|within| + |name|] == '/'
  {
    if path == within + name {
      assert (within + name)[|within|..|within| + |name|] == name;
    } else {
      var start := within + name + "/";
      assert start[|within|..|within| + |name|] == name && start[|within| + |name|] == '/';
      assert path[..|start|][|within|..|within| + |name|] == path[|within|..|within| + |name|];
    }
  }

  /** A path goes through one file of a directory only. */
  lemma OneWay(path: string, within: string, a: string, b: string)
    requires '/' !in a && '/' !in b && Through(path, within, a) && Through(path, within, b)
    ensures a == b
  {
    NameInPath(path, within, a);
    NameInPath(path, within, b);
    NoLonger(path, within, a, b);
    NoLonger(path, within, b, a);
  }

  lemma NoLonger(path: string, within: string, a: string, b: string)
    requires '/' !in b && |path| >= |within| + |a| && |path| >= |within| + |b|
    requires |path| > |within| + |a| ==> path[|within| + |a|] == '/'
    requires path[|within|..|within| + |b|] == b
    ensures |b| <= |a|
  {
    forall k | 0 <= k < |b|
      ensures b[k] != '/' && b[k] == path[|within| + k]
    {
      assert b[k] == path[|within|..|within| + |b|][k];
    }
  }

  /** Everything listed lies within its directory, through one of its files. */
  lemma {:induction false} ListedWithin(r: Remote, dir: string, depth: nat, maxDepth: nat, e: Entry)
    requires Sorts(r) && PlainDirectories(r) && depth <= maxDepth + 1 && e in Listing(r, dir, depth, maxDepth)
    ensures StartsWith(e.path, Within(dir))
    decreases maxDepth + 1 - depth, 1
  {
    InDirectoryPiece(r, dir, depth, maxDepth, e);
    var file :| InDirectory(r, dir, file) && e in Piece(r, dir, file, depth, maxDepth);
    PieceThrough(r, dir, file, depth, maxDepth, e);
  }

  lemma {:induction false} PieceThrough(r: Remote, dir: string, file: File, depth: nat, maxDepth: nat, e: Entry)
    requires Sorts(r) && PlainDirectories(r) && depth <= maxDepth && file.name != "" && e in Piece(r, dir, file, depth, maxDepth)
    ensures Through(e.path, Within(dir), file.name) && StartsWith(e.path, Within(dir))
    decreases maxDepth + 1 - depth, 0
  {
    var next := Within(dir) + file.name;
    assert NextPath(dir, file.name) == next && next != "/";
    if file.kind == Directory {
      ListedWithin(r, next, depth + 1, maxDepth, e);
      Shorter(e.path, Within(dir), file.name);
    }
  }

  lemma Shorter(path: string, within: string, name: string)
    requires StartsWith(path, within + name + "/")
    ensures StartsWith(path, within)
  {
    assert path[..|within|] == (within + name + "/")[..|within|];
  }

  ghost predicate NoPathTwice(es: seq<Entry>) {
    forall i, j :: 0 <= i < j < |es| ==> es[i].path != es[j].path
  }

  lemma NoPathTwiceAppend(a: seq<Entry>, b: seq<Entry>)
    requires NoPathTwice(a) && NoPathTwice(b)
    requires forall d, e :: d in a && e in b ==> d.path != e.path
    ensures NoPathTwice(a + b)
  {
    forall i, j | 0 <= i < j < |a + b|
      ensures (a + b)[i].path != (a + b)[j].path
    {
      if i < |a| <= j {
        assert a[i] in a && b[j - |a|] in b;
      }
    }
  }

  /** Distinct names survive the sort. */
  lemma OrderedDistinct(r: Remote, dir: string)
    requires Sorts(r) && PlainDirectories(r) && r.read(dir).Some?
    ensures DistinctFiles(r.order(r.read(dir).value)) && PlainFiles(r.order(r.read(dir).value))
  {
    var files, sorted := r.read(dir).value, r.order(r.read(dir).value);
    MultisetMembers(sorted, files);
    forall i, j | 0 <= i < j < |sorted|
      ensures sorted[i].name != sorted[j].name
    {
      assert sorted[i] in files && sorted[j] in files;
      if sorted[i] == sorted[j] {
        Twice(sorted, i, j);
        Occurs(files, sorted[i]);
      }
    }
  }

  /** No path is listed twice. */
  lemma {:induction false} ListingRepeatsNothing(r: Remote, dir: string, depth: nat, maxDepth: nat)
    requires Sorts(r) && PlainDirectories(r) && depth <= maxDepth + 1
    ensures NoPathTwice(Listing(r, dir, depth, maxDepth))
    decreases maxDepth + 1 - depth, 1, 0
  {
    if depth <= maxDepth && r.read(dir).Some? {
      OrderedDistinct(r, dir);
      FilesRepeatNothing(r, dir, r.order(r.read(dir).value), depth, maxDepth);
    }
  }

  lemma {:induction false} FilesRepeatNothing(r: Remote, dir: string, files: seq<File>, depth: nat, maxDepth: nat)
    requires Sorts(r) && PlainDirectories(r) && depth <= maxDepth && DistinctFiles(files) && PlainFiles(files)
    ensures NoPathTwice(ListFiles(r, dir, files, depth, maxDepth))
    decreases maxDepth + 1 - depth, 0, |files|
  {
    if files != [] {
      var piece, rest := Piece(r, dir, files[0], depth, maxDepth), ListFiles(r, dir, files[1..], depth, maxDepth);
      FilesRepeatNothing(r, dir, files[1..], depth, maxDepth);
      if files[0].kind == Directory {
        ListingRepeatsNothing(r, NextPath(dir, files[0].name), depth + 1, maxDepth);
      }
      forall d, e | d in piece && e in rest
        ensures d.path != e.path
      {
        InSomePiece(r, dir, files[1..], depth, maxDepth, e);
        var file :| file in files[1..] && e in Piece(r, dir, file, depth, maxDepth);
        DifferentFiles(r, dir, files, file, depth, maxDepth, d, e);
      }
      NoPathTwiceAppend(piece, rest);
      assert ListFiles(r, dir, files, depth, maxDepth) == piece + rest;
    }
  }

  lemma DifferentFiles(r: Remote, dir: string, files: seq<File>, file: File, depth: nat, maxDepth: nat, d: Entry, e: Entry)
    requires Sorts(r) && PlainDirectories(r) && depth <= maxDepth && DistinctFiles(files) && PlainFiles(files)
    requires files != [] && file in files[1..]
    requires d in Piece(r, dir, files[0], depth, maxDepth) && e in Piece(r, dir, file, depth, maxDepth)
    ensures d.path != e.path
  {
    assert files[0] in files && file in files;
    var j :| 0 <= j < |files[1..]| && files[1..][j] == file;
    assert files[j + 1].name != files[0].name;
    PieceThrough(r, dir, files[0], depth, maxDepth, d);
    PieceThrough(r, dir, file, depth, maxDepth, e);
    if d.path == e.path {
      OneWay(d.path, Within(dir), files[0].name, file.name);
    }
  }

  /** Where directories name no file twice, each log file within reach is listed exactly once,
      and nothing else is. */
  lemma EachFileOnce(r: Remote, dir: string, depth: nat, maxDepth: nat, e: Entry)
    requires Sorts(r) && PlainDirectories(r) && depth <= maxDepth + 1
    ensures multiset(Listing(r, dir, depth, maxDepth))[e]
         == if exists names :: |names| + depth <= maxDepth && LogAt(r, dir, names, e) then 1 else 0
  {
    ListingIsReach(r, dir, depth, maxDepth, e);
    ListingRepeatsNothing(r, dir, depth, maxDepth);
    Occurs(Listing(r, dir, depth, maxDepth), e);
  }

  // ---------------------------------------------------------------- Scan

  function Limited(maxDepth: int, maxFiles: int): (l: Limits)
    ensures 1 <= l.maxDepth <= 20 && 1 <= l.maxFiles <= 10000
  {
    Limits(if maxDepth <= 0 then 8 else if maxDepth > 20 then 20 else maxDepth,
           if maxFiles <= 0 then 2000 else if maxFiles > 10000 then 10000 else maxFiles)
  }

  datatype ScanResult = ScanResult(found: Found, limits: Limits)

  datatype Error = Cancelled

  /** The result is the first `maxFiles` files of the plain listing, and when it is not marked
      truncated it is the whole listing, at this depth limit and every larger one. */
  ghost predicate Complete(r: Remote, dir: string, limits: Limits, found: Found) {
    && found.entries == Take(Listing(r, dir, 0, limits.maxDepth), limits.maxFiles)
    && (!found.truncated ==> forall larger :: larger >= limits.maxDepth ==> found.entries == Listing(r, dir, 0, larger))
  }

  /** The mark exactly: a directory below the depth limit, or a look with the result full. */
  ghost predicate MarkedExactly(r: Remote, dir: string, limits: Limits, found: Found) {
    var events := Trace(r, dir, 0, limits.maxDepth);
    found.truncated <==> TooDeep in events || |Seen(Init(events))| >= limits.maxFiles
  }

  lemma WalkIsComplete(r: Remote, limits: Limits, dir: string)
    requires limits.maxFiles > 0
    ensures var found := Walked(r, limits, dir, 0, Found([], false));
            Complete(r, dir, limits, found) && MarkedExactly(r, dir, limits, found)
  {
    var events, start := Trace(r, dir, 0, limits.maxDepth), Found([], false);
    WalkIsFold(r, limits, dir, 0, start);
    FoldEntries(start, events, limits.maxFiles);
    FoldTruncatedExactly(start, events, limits.maxFiles);
    TraceLists(r, dir, 0, limits.maxDepth);
    assert [] + Seen(events) == Seen(events);
    if !Fold(start, events, limits.maxFiles).truncated {
      assert events == Init(events) + [Last(events)];
      SeenAppend(Init(events), [Last(events)]);
      assert [Last(events)][1..] == [];
      forall larger | larger >= limits.maxDepth
        ensures Listing(r, dir, 0, larger) == Seen(events)
      {
        ShallowIsComplete(r, dir, 0, limits.maxDepth, larger);
        TraceLists(r, dir, 0, larger);
      }
    }
  }

  /** Some log file below the directory, however deep, is not among the entries. */
  ghost predicate Misses(r: Remote, dir: string, entries: seq<Entry>) {
    exists e, names :: LogAt(r, dir, names, e) && e !in entries
  }

  /** Some log file lies too deep for the listing. */
  ghost predicate TooDeepFor(r: Remote, dir: string, maxDepth: nat) {
    exists e, names :: LogAt(r, dir, names, e) && e !in Listing(r, dir, 0, maxDepth)
  }

  /** A result, marked or not, lacks a log file exactly if the listing has more files than the
      limit or some log file lies too deep for it. */
  lemma MissesExactly(r: Remote, dir: string, limits: Limits)
    requires limits.maxFiles > 0 && Sorts(r) && PlainDirectories(r)
    ensures Misses(r, dir, Walked(r, limits, dir, 0, Found([], false)).entries)
       <==> |Listing(r, dir, 0, limits.maxDepth)| > limits.maxFiles || TooDeepFor(r, dir, limits.maxDepth)
  {
    var listing := Listing(r, dir, 0, limits.maxDepth);
    var entries := Walked(r, limits, dir, 0, Found([], false)).entries;
    WalkIsComplete(r, limits, dir);
    assert entries == Take(listing, limits.maxFiles);
    assert forall e :: e in entries ==> e in listing;
    if |listing| > limits.maxFiles {
      var e := listing[limits.maxFiles];
      ListingRepeatsNothing(r, dir, 0, limits.maxDepth);
      forall k | 0 <= k < limits.maxFiles
        ensures entries[k] != e
      {
        assert listing[k].path != e.path;
      }
      ListingIsReach(r, dir, 0, limits.maxDepth, e);
      var names :| |names| + 0 <= limits.maxDepth && LogAt(r, dir, names, e);
      assert LogAt(r, dir, names, e) && e !in entries;
    } else {
      assert entries == listing;
    }
  }

  /** A result that lacks a log file is marked. */
  lemma MissingIsMarked(r: Remote, dir: string, limits: Limits)
    requires limits.maxFiles > 0 && Sorts(r)
    requires Misses(r, dir, Walked(r, limits, dir, 0, Found([], false)).entries)
    ensures Walked(r, limits, dir, 0, Found([], false)).truncated
  {
    var found := Walked(r, limits, dir, 0, Found([], false));
    WalkIsComplete(r, limits, dir);
    var e, names :| LogAt(r, dir, names, e) && e !in found.entries;
    var larger := limits.maxDepth + |names|;
    ListingIsReach(r, dir, 0, larger, e);
    assert |names| + 0 <= larger && LogAt(r, dir, names, e);
  }

  /** `Scan`, once the connection is up. It fails only when the context is cancelled. */
  method Scan(remote: Remote, safePath: string, maxDepth: int, maxFiles: int, cancelled: nat -> bool)
    returns (r: Result<ScanResult, Error>)
    ensures r.Err? ==> exists k :: cancelled(k)
    ensures r.Ok? ==> r.value.limits == Limited(maxDepth, maxFiles)
    ensures r.Ok? ==> Complete(remote, safePath, r.value.limits, r.value.found)
    ensures r.Ok? ==> MarkedExactly(remote, safePath, r.value.limits, r.value.found)
  {
    var depth, files := maxDepth, maxFiles;
    if depth <= 0 {
      depth := 8;
    }
    if depth > 20 {
      depth := 20;
    }
    if files <= 0 {
      files := 2000;
    }
    if files > 10000 {
      files := 10000;
    }
    var walker := new Walker(remote, Limits(depth, files), cancelled);
    var ok := walker.Walk(safePath, 0);
    if !ok {
      return Err(Cancelled);
    }
    WalkIsComplete(remote, Limits(depth, files), safePath);
    return Ok(ScanResult(walker.State(), Limits(depth, files)));
  }

  // ---------------------------------------------------------------- the mark without a missing file

  /** With room for one file, one log file and another file after it: nothing is missing, and
      the result is marked truncated all the same. */
  lemma MarkedWithNothingMissing(r: Remote, maxDepth: nat, log: File, other: File)
    requires r.read("/") == Some([log, other]) && r.order([log, other]) == [log, other]
    requires Wanted(log) && !Wanted(other) && other.kind == Regular && !IsDots(log.name) && !IsDots(other.name)
    ensures var found := Walked(r, Limits(maxDepth, 1), "/", 0, Found([], false));
            found.truncated && found.entries == Listing(r, "/", 0, maxDepth) == [EntryFor("/", log)]
  {
    TwoFiles(r, Limits(maxDepth, 1), log, other, Found([], false));
  }

  lemma TwoFiles(r: Remote, limits: Limits, log: File, other: File, start: Found)
    requires limits.maxFiles == 1 && start == Found([], false)
    requires Wanted(log) && !Wanted(other) && other.kind == Regular && !IsDots(log.name) && !IsDots(other.name)
    ensures WalkedFiles(r, limits, "/", [log, other], 0, start) == Found([EntryFor("/", log)], true)
    ensures ListFiles(r, "/", [log, other], 0, limits.maxDepth) == [EntryFor("/", log)]
  {
    assert [log, other][1..] == [other] && [other][1..] == [];
    assert [] + [EntryFor("/", log)] == [EntryFor("/", log)];
    assert ListFiles(r, "/", [other], 0, limits.maxDepth) == [];
  }
}
