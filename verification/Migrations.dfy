/** The migration runner (api/internal/migrate/migrate.go): the order of the files, one clean
    run, and any number of concurrent runners with failures, lost sessions and crashes. */
module Migrations {
  import opened Wrappers
  import opened Sorting
  import opened Text

  // ---------------------------------------------------------------- file names

  predicate IsWordChar(c: char) {
    'a' <= c <= 'z' || IsDigit(c)
  }

  /** `_word` repeated at least once, a word being lower-case letters and digits. */
  predicate IsWords(m: string) {
    && |m| >= 2 && m[0] == '_' && m[|m| - 1] != '_'
    && (forall i :: 0 <= i < |m| ==> m[i] == '_' || IsWordChar(m[i]))
    && (forall i :: 0 <= i < |m| - 1 ==> m[i] != '_' || m[i + 1] != '_')
  }

  /** Four digits, words, `.sql`. */
  predicate IsMigrationName(s: string) {
    && |s| >= 10
    && (forall i :: 0 <= i < 4 ==> IsDigit(s[i]))
    && s[|s| - 4..] == ".sql"
    && IsWords(s[4..|s| - 4])
  }

  /** A file with the SQL it carries. */
  datatype File = File(name: string, sql: string)

  predicate LeFile(a: File, b: File) {
    Le(a.name, b.name)
  }

  ghost predicate DistinctNames(files: seq<File>) {
    forall i, j :: 0 <= i < j < |files| ==> files[i].name != files[j].name
  }

  /** `sortMigrationFiles`: the first file with a bad name is reported and nothing moves;
      otherwise the slice is ordered by name, as a permutation of itself. */
  method SortMigrationFiles(files: array<File>) returns (invalid: Option<string>)
    modifies files
    ensures invalid.None? <==> forall f :: f in old(files[..]) ==> IsMigrationName(f.name)
    ensures invalid.Some? ==> files[..] == old(files[..]) && !IsMigrationName(invalid.value)
    ensures invalid.None? ==> IsSorted(files[..], LeFile) && multiset(files[..]) == multiset(old(files[..]))
  {
    var i := 0;
    while i < files.Length
      invariant 0 <= i <= files.Length && files[..] == old(files[..])
      invariant forall j :: 0 <= j < i ==> IsMigrationName(files[j].name)
    {
      if !IsMigrationName(files[i].name) {
        assert files[i] in files[..];
        return Some(files[i].name);
      }
      i := i + 1;
    }
    LeFileTotalPreorder();
    var order := Sorted(files[..], LeFile);
    SortedIsSorted(files[..], LeFile);
    MultisetMembers(order, files[..]);
    forall k | 0 <= k < files.Length {
      files[k] := order[k];
    }
    assert files[..] == order;
    invalid := None;
  }

  lemma LeFileTotalPreorder()
    ensures TotalPreorder(LeFile)
  {
    LeIsTotalOrder();
    forall x: File, y: File ensures LeFile(x, y) || LeFile(y, x) {
      LeTotal(x.name, y.name);
    }
    forall x: File, y: File, z: File | LeFile(x, y) && LeFile(y, z) ensures LeFile(x, z) {
      LeTransitive(x.name, y.name, z.name);
    }
  }

  lemma FirstName(a: seq<File>, f: File)
    requires IsSorted(a, LeFile) && f in a
    ensures Le(a[0].name, f.name)
  {
    var i :| 0 <= i < |a| && a[i] == f;
    if i == 0 {
      LeTotal(f.name, f.name);
    } else {
      assert LeFile(a[0], a[i]);
    }
  }

  lemma SameName(a: seq<File>, f: File, g: File)
    requires DistinctNames(a) && f in a && g in a && f.name == g.name
    ensures f == g
  {
    var i :| 0 <= i < |a| && a[i] == f;
    var j :| 0 <= j < |a| && a[j] == g;
    assert i == j;
  }

  /** Every runner works through the same list in the same order: however the sort breaks
      ties and whatever order the directory listing had. */
  lemma {:induction false} OneOrder(a: seq<File>, b: seq<File>)
    requires IsSorted(a, LeFile) && IsSorted(b, LeFile) && multiset(a) == multiset(b) && DistinctNames(a)
    ensures a == b
  {
    MultisetMembers(a, b);
    if a != [] {
      assert a[0] in b && b[0] in a;
      FirstName(a, b[0]);
      FirstName(b, a[0]);
      LeTotal(a[0].name, b[0].name);
      SameName(a, a[0], b[0]);
      TailMultiset(a);
      TailMultiset(b);
      OneOrder(a[1..], b[1..]);
    }
  }

  // ---------------------------------------------------------------- one clean run

  /** The database as one runner sees it: the committed effects in commit order and the rows
      of `schema_migrations`. `broken` are the files whose SQL the server rejects. */
  class Database {
    var effects: seq<string>
    var recorded: set<string>
    const broken: set<string>

    constructor (broken: set<string>)
      ensures effects == [] && recorded == {} && this.broken == broken
    {
      this.broken := broken;
      effects, recorded := [], {};
    }

    /** `applyFile`: one transaction that checks, executes and records. */
    method ApplyFile(name: string) returns (ok: bool)
      modifies this
      ensures ok == (name in old(recorded) || name !in broken)
      ensures name in old(recorded) || name in broken ==> effects == old(effects) && recorded == old(recorded)
      ensures name !in old(recorded) && name !in broken ==>
                effects == old(effects) + [name] && recorded == old(recorded) + {name}
    {
      if name in recorded {
        return true;
      }
      if name in broken {
        return false;
      }
      effects := effects + [name];
      recorded := recorded + {name};
      return true;
    }

    /** `applyMigrations` without interference, from a database that already has a prefix of
        the list: it continues where the prefix ends and stops before the first broken file. */
    method ApplyMigrations(names: seq<string>) returns (ok: bool)
      requires Distinct(names)
      requires effects <= names && recorded == Set(effects)
      modifies this
      ensures effects <= names && recorded == Set(effects)
      ensures |old(effects)| <= |effects|
      ensures ok <==> effects == names
      ensures !ok ==> names[|effects|] in broken
      ensures forall k :: |old(effects)| <= k < |effects| ==> names[k] !in broken
    {
      var done := |effects|;
      var i := 0;
      while i < |names|
        invariant 0 <= i <= |names|
        invariant |effects| == (if i < done then done else i)
        invariant effects <= names && recorded == Set(effects)
        invariant forall k :: done <= k < |effects| ==> names[k] !in broken
      {
        var recordedBefore := recorded;
        assert i < done ==> names[i] == effects[i];
        assert i >= done ==> names[i] !in effects;
        var fileOk := ApplyFile(names[i]);
        if !fileOk {
          return false;
        }
        i := i + 1;
      }
      return true;
    }
  }

  ghost predicate Distinct(names: seq<string>) {
    forall i, j :: 0 <= i < j < |names| ==> names[i] != names[j]
  }

  function Set(names: seq<string>): set<string> {
    set n | n in names
  }

  // ---------------------------------------------------------------- concurrent runners

  type RunnerId = nat
  type ConnId = nat

  /** Where a connection is: idle in the pool, held by a runner, or hijacked for closing. */
  datatype Place = Pool | Used(runner: RunnerId) | Hijacked

  /** `alive`: the server session still exists. */
  datatype Conn = Conn(place: Place, alive: bool)

  datatype Phase =
    | Locking
    | CreatingTable
    | Between(next: nat)
    | Checking(file: nat)
    | Executing(file: nat)
    | Recording(file: nat)
    | Committing(file: nat, carries: bool)
    | Unlocking(ok: bool)
    | Returned(ok: bool)

  datatype Runner = Runner(conn: ConnId, phase: Phase)

  /** `holder` is the session that owns the advisory lock and `depth` how often it took it. */
  datatype State = State(
    effects: seq<string>,
    recorded: set<string>,
    holder: Option<ConnId>,
    depth: nat,
    conns: map<ConnId, Conn>,
    runners: map<RunnerId, Runner>)

  datatype Step =
    | Start(r: RunnerId, c: ConnId)
    | LockGranted(r: RunnerId)
    | LockFails(r: RunnerId, granted: bool)
    | TableCreated(r: RunnerId)
    | Begin(r: RunnerId)
    | Checked(r: RunnerId)
    | Executed(r: RunnerId)
    | Recorded(r: RunnerId)
    | Committed(r: RunnerId)
    | StatementFails(r: RunnerId, committed: bool)
    | AllDone(r: RunnerId)
    | Unlocked(r: RunnerId)
    | UnlockFails(r: RunnerId, released: bool)
    | SessionEnds(c: ConnId)
    | Crash(r: RunnerId)

  ghost predicate Alive(s: State, r: RunnerId) {
    r in s.runners && s.runners[r].conn in s.conns && s.conns[s.runners[r].conn].alive
  }

  predicate InProgress(phase: Phase) {
    phase.CreatingTable? || phase.Between? || phase.Checking? || phase.Executing? || phase.Recording?
    || phase.Committing?
  }

  /** A lock request is granted to the owner again or when nobody owns the lock. */
  predicate LockFree(s: State, c: ConnId) {
    s.holder.None? || s.holder == Some(c)
  }

  ghost predicate CanCommit(names: seq<string>, s: State, r: RunnerId) {
    Alive(s, r) && s.runners[r].phase.Committing? && s.runners[r].phase.file < |names|
  }

  ghost predicate Enabled(names: seq<string>, s: State, step: Step) {
    match step
    case Start(r, c) =>
      r !in s.runners && (c in s.conns ==> s.conns[c].place == Pool) && (c !in s.conns ==> s.holder != Some(c))
    case LockGranted(r) => Alive(s, r) && s.runners[r].phase == Locking && LockFree(s, s.runners[r].conn)
    case LockFails(r, granted) =>
      && r in s.runners && s.runners[r].phase == Locking
      && (granted ==> Alive(s, r) && LockFree(s, s.runners[r].conn))
    case TableCreated(r) => Alive(s, r) && s.runners[r].phase == CreatingTable
    case Begin(r) => Alive(s, r) && s.runners[r].phase.Between? && s.runners[r].phase.next < |names|
    case Checked(r) => Alive(s, r) && s.runners[r].phase.Checking? && s.runners[r].phase.file < |names|
    case Executed(r) => Alive(s, r) && s.runners[r].phase.Executing?
    case Recorded(r) => Alive(s, r) && s.runners[r].phase.Recording?
    case Committed(r) => CanCommit(names, s, r)
    case StatementFails(r, committed) =>
      && r in s.runners && InProgress(s.runners[r].phase)
      && (committed ==> CanCommit(names, s, r))
    case AllDone(r) => r in s.runners && s.runners[r].phase.Between? && s.runners[r].phase.next >= |names|
    case Unlocked(r) => Alive(s, r) && s.runners[r].phase.Unlocking? && s.holder == Some(s.runners[r].conn)
    case UnlockFails(r, released) =>
      && r in s.runners && s.runners[r].phase.Unlocking?
      && (released ==> Alive(s, r) && s.holder == Some(s.runners[r].conn))
    case SessionEnds(c) => c in s.conns
    case Crash(r) => r in s.runners
  }

  function WithPhase(s: State, r: RunnerId, phase: Phase): State
    requires r in s.runners
  {
    s.(runners := s.runners[r := s.runners[r].(phase := phase)])
  }

  function Locked(s: State, c: ConnId): State {
    s.(holder := Some(c), depth := s.depth + 1)
  }

  /** One unlock, or the loss of the session, by the owner. */
  function Released(s: State): State {
    if s.depth <= 1 then s.(holder := None, depth := 0) else s.(depth := s.depth - 1)
  }

  function Placed(s: State, c: ConnId, place: Place): State {
    if c in s.conns then s.(conns := s.conns[c := s.conns[c].(place := place)]) else s
  }

  function CommitWork(names: seq<string>, s: State, phase: Phase): State
    requires phase.Committing? && phase.file < |names|
  {
    if phase.carries
    then s.(effects := s.effects + [names[phase.file]], recorded := s.recorded + {names[phase.file]})
    else s
  }

  ghost function Next(names: seq<string>, s: State, step: Step): State
    requires Enabled(names, s, step)
  {
    match step
    case Start(r, c) =>
      var conn := Conn(Used(r), if c in s.conns then s.conns[c].alive else true);
      s.(conns := s.conns[c := conn], runners := s.runners[r := Runner(c, Locking)])
    case LockGranted(r) => WithPhase(Locked(s, s.runners[r].conn), r, CreatingTable)
    case LockFails(r, granted) =>
      var c := s.runners[r].conn;
      WithPhase(Placed(if granted then Locked(s, c) else s, c, Hijacked), r, Returned(false))
    case TableCreated(r) => WithPhase(s, r, Between(0))
    case Begin(r) => WithPhase(s, r, Checking(s.runners[r].phase.next))
    case Checked(r) =>
      var k := s.runners[r].phase.file;
      WithPhase(s, r, if names[k] in s.recorded then Committing(k, false) else Executing(k))
    case Executed(r) => WithPhase(s, r, Recording(s.runners[r].phase.file))
    case Recorded(r) => WithPhase(s, r, Committing(s.runners[r].phase.file, true))
    case Committed(r) =>
      WithPhase(CommitWork(names, s, s.runners[r].phase), r, Between(s.runners[r].phase.file + 1))
    case StatementFails(r, committed) =>
      WithPhase(if committed then CommitWork(names, s, s.runners[r].phase) else s, r, Unlocking(false))
    case AllDone(r) => WithPhase(s, r, Unlocking(true))
    case Unlocked(r) =>
      WithPhase(Placed(Released(s), s.runners[r].conn, Pool), r, Returned(s.runners[r].phase.ok))
    case UnlockFails(r, released) =>
      WithPhase(Placed(if released then Released(s) else s, s.runners[r].conn, Hijacked), r, Returned(false))
    case SessionEnds(c) =>
      var dead := s.(conns := s.conns[c := s.conns[c].(alive := false)]);
      if s.holder == Some(c) then dead.(holder := None, depth := 0) else dead
    case Crash(r) =>
      var gone := s.(runners := s.runners - {r});
      if s.runners[r].phase.Returned? then gone else Placed(gone, s.runners[r].conn, Hijacked)
  }

  // ---------------------------------------------------------------- the invariant

  /** The committed effects are a prefix of the ordered list, each once, and exactly those
      are recorded. */
  ghost predicate AppliedPrefix(names: seq<string>, s: State) {
    s.effects <= names && s.recorded == Set(s.effects)
  }

  /** No connection in the pool owns the lock. */
  ghost predicate PoolUnlocked(s: State) {
    forall c :: c in s.conns && s.conns[c].place == Pool ==> s.holder != Some(c)
  }

  ghost predicate LockOk(s: State) {
    && s.depth == (if s.holder.Some? then 1 else 0)
    && (s.holder.Some? ==> s.holder.value in s.conns && s.conns[s.holder.value].alive)
  }

  ghost predicate OwnsLock(s: State, runner: Runner) {
    runner.conn in s.conns && s.conns[runner.conn].alive ==> s.holder == Some(runner.conn)
  }

  ghost predicate RunnerOk(names: seq<string>, s: State, r: RunnerId)
    requires r in s.runners
  {
    var runner := s.runners[r];
    var n := |s.effects|;
    && (!runner.phase.Returned? ==> runner.conn in s.conns && s.conns[runner.conn].place == Used(r))
    && (InProgress(runner.phase) || runner.phase.Unlocking? ==> OwnsLock(s, runner))
    && match runner.phase
       case Locking => s.holder != Some(runner.conn)
       case CreatingTable => true
       case Between(k) => k <= n
       case Checking(k) => k <= n && k < |names|
       case Executing(k) => k < |names| && (Alive(s, r) ==> k == n)
       case Recording(k) => k < |names| && (Alive(s, r) ==> k == n)
       case Committing(k, carries) => k < |names| && if carries then Alive(s, r) ==> k == n else k < n
       case Unlocking(ok) => ok ==> s.effects == names
       case Returned(ok) => ok ==> s.effects == names
  }

  ghost predicate Inv(names: seq<string>, s: State) {
    && AppliedPrefix(names, s) && PoolUnlocked(s) && LockOk(s)
    && forall r :: r in s.runners ==> RunnerOk(names, s, r)
  }

  // ---------------------------------------------------------------- every step keeps it

  /** Only one runner with a live session is past the lock. */
  lemma OneOwner(names: seq<string>, s: State, r: RunnerId, q: RunnerId)
    requires Inv(names, s) && Alive(s, r) && Alive(s, q)
    requires InProgress(s.runners[r].phase) || s.runners[r].phase.Unlocking?
    requires InProgress(s.runners[q].phase) || s.runners[q].phase.Unlocking?
    ensures r == q
  {
    assert RunnerOk(names, s, r) && RunnerOk(names, s, q);
  }

  /** A step in which runner `r` moves to `phase` and the tables and the lock stay. */
  lemma PhaseKeepsInv(names: seq<string>, s: State, r: RunnerId, phase: Phase)
    requires Inv(names, s) && r in s.runners && RunnerOk(names, WithPhase(s, r, phase), r)
    ensures Inv(names, WithPhase(s, r, phase))
  {
    var s' := WithPhase(s, r, phase);
    forall q | q in s'.runners
      ensures RunnerOk(names, s', q)
    {
      if q != r {
        assert RunnerOk(names, s, q);
      }
    }
  }

  /** The commit of a migration: it is the next file of the list. */
  lemma CommitAppends(names: seq<string>, s: State, r: RunnerId)
    requires Inv(names, s) && CanCommit(names, s, r) && Distinct(names)
    ensures var phase := s.runners[r].phase;
            var s' := CommitWork(names, s, phase);
            && Inv(names, WithPhase(s', r, Unlocking(false)))
            && Inv(names, WithPhase(s', r, Between(phase.file + 1)))
            && s.effects <= s'.effects
  {
    var phase := s.runners[r].phase;
    var s' := CommitWork(names, s, phase);
    assert RunnerOk(names, s, r);
    assert AppliedPrefix(names, s');
    forall q | q in s.runners && q != r
      ensures RunnerOk(names, s', q)
    {
      assert RunnerOk(names, s, q);
      if Alive(s, q) && (InProgress(s.runners[q].phase) || s.runners[q].phase.Unlocking?) {
        OneOwner(names, s, r, q);
      }
    }
    forall end | end == Unlocking(false) || end == Between(phase.file + 1)
      ensures Inv(names, WithPhase(s', r, end))
    {
      var t := WithPhase(s', r, end);
      forall q | q in t.runners
        ensures RunnerOk(names, t, q)
      {
        if q != r {
          assert RunnerOk(names, s', q);
        }
      }
    }
  }

  predicate OnlyMoves(step: Step) {
    || step.TableCreated? || step.Begin? || step.Checked? || step.Executed? || step.Recorded? || step.AllDone?
    || (step.StatementFails? && !step.committed)
  }

  lemma MovesKeepInv(names: seq<string>, s: State, step: Step)
    requires Inv(names, s) && Enabled(names, s, step) && OnlyMoves(step) && Distinct(names)
    ensures Inv(names, Next(names, s, step)) && Next(names, s, step).effects == s.effects
  {
    var r := step.r;
    var phase := Next(names, s, step).runners[r].phase;
    assert Next(names, s, step) == WithPhase(s, r, phase);
    assert RunnerOk(names, s, r);
    PhaseKeepsInv(names, s, r, phase);
  }

  /** The lock is granted: nobody else owned it, and this session had not taken it before. */
  lemma GrantKeepsInv(names: seq<string>, s: State, r: RunnerId)
    requires Inv(names, s) && Enabled(names, s, LockGranted(r))
    ensures Inv(names, Next(names, s, LockGranted(r)))
  {
    var s' := Next(names, s, LockGranted(r));
    assert RunnerOk(names, s, r);
    forall q | q in s'.runners
      ensures RunnerOk(names, s', q)
    {
      assert RunnerOk(names, s, q);
    }
  }

  /** A runner gives its connection away and returns; the lock moves as `t` says. */
  lemma ReturnKeepsInv(names: seq<string>, s: State, t: State, r: RunnerId, place: Place, ok: bool)
    requires Inv(names, s) && r in s.runners && !s.runners[r].phase.Returned?
    requires t.effects == s.effects && t.recorded == s.recorded && t.conns == s.conns && t.runners == s.runners
    requires t.holder == s.holder || (t.holder == Some(s.runners[r].conn) && s.holder.None?)
             || (t.holder.None? && s.holder == Some(s.runners[r].conn))
    requires LockOk(t)
    requires place == Hijacked || (place == Pool && t.holder != Some(s.runners[r].conn))
    requires ok ==> s.effects == names
    ensures Inv(names, WithPhase(Placed(t, s.runners[r].conn, place), r, Returned(ok)))
  {
    var c := s.runners[r].conn;
    var s' := WithPhase(Placed(t, c, place), r, Returned(ok));
    assert RunnerOk(names, s, r);
    forall q | q in s'.runners
      ensures RunnerOk(names, s', q)
    {
      assert RunnerOk(names, s, q);
    }
  }

  lemma ReturnsKeepInv(names: seq<string>, s: State, step: Step)
    requires Inv(names, s) && Enabled(names, s, step)
    requires step.LockFails? || step.Unlocked? || step.UnlockFails?
    ensures Inv(names, Next(names, s, step)) && Next(names, s, step).effects == s.effects
  {
    var r := step.r;
    assert RunnerOk(names, s, r);
    match step
    case LockFails(_, granted) =>
      ReturnKeepsInv(names, s, if granted then Locked(s, s.runners[r].conn) else s, r, Hijacked, false);
    case Unlocked(_) =>
      ReturnKeepsInv(names, s, Released(s), r, Pool, s.runners[r].phase.ok);
    case UnlockFails(_, released) =>
      ReturnKeepsInv(names, s, if released then Released(s) else s, r, Hijacked, false);
  }

  lemma StartKeepsInv(names: seq<string>, s: State, r: RunnerId, c: ConnId)
    requires Inv(names, s) && Enabled(names, s, Start(r, c))
    ensures Inv(names, Next(names, s, Start(r, c)))
  {
    var s' := Next(names, s, Start(r, c));
    forall q | q in s'.runners
      ensures RunnerOk(names, s', q)
    {
      if q != r {
        assert RunnerOk(names, s, q);
      }
    }
  }

  lemma SessionEndKeepsInv(names: seq<string>, s: State, c: ConnId)
    requires Inv(names, s) && Enabled(names, s, SessionEnds(c))
    ensures Inv(names, Next(names, s, SessionEnds(c)))
  {
    var s' := Next(names, s, SessionEnds(c));
    forall q | q in s'.runners
      ensures RunnerOk(names, s', q)
    {
      assert RunnerOk(names, s, q);
    }
  }

  lemma CrashKeepsInv(names: seq<string>, s: State, r: RunnerId)
    requires Inv(names, s) && Enabled(names, s, Crash(r))
    ensures Inv(names, Next(names, s, Crash(r)))
  {
    var s' := Next(names, s, Crash(r));
    assert RunnerOk(names, s, r);
    forall q | q in s'.runners
      ensures RunnerOk(names, s', q)
    {
      assert RunnerOk(names, s, q);
    }
  }

  lemma StepKeepsInv(names: seq<string>, s: State, step: Step)
    requires Inv(names, s) && Enabled(names, s, step) && Distinct(names)
    ensures Inv(names, Next(names, s, step))
    ensures s.effects <= Next(names, s, step).effects
  {
    if OnlyMoves(step) {
      MovesKeepInv(names, s, step);
    } else {
      match step
      case Start(r, c) => StartKeepsInv(names, s, r, c);
      case LockGranted(r) => GrantKeepsInv(names, s, r);
      case Committed(r) => CommitAppends(names, s, r);
      case StatementFails(r, _) => CommitAppends(names, s, r);
      case SessionEnds(c) => SessionEndKeepsInv(names, s, c);
      case Crash(r) => CrashKeepsInv(names, s, r);
      case LockFails(_, _) => ReturnsKeepInv(names, s, step);
      case Unlocked(_) => ReturnsKeepInv(names, s, step);
      case UnlockFails(_, _) => ReturnsKeepInv(names, s, step);
    }
  }

  // ---------------------------------------------------------------- runs

  ghost predicate Run(names: seq<string>, s: State, steps: seq<Step>)
    decreases |steps|
  {
    steps == [] || (Enabled(names, s, steps[0]) && Run(names, Next(names, s, steps[0]), steps[1..]))
  }

  ghost function After(names: seq<string>, s: State, steps: seq<Step>): State
    requires Run(names, s, steps)
    decreases |steps|
  {
    if steps == [] then s else After(names, Next(names, s, steps[0]), steps[1..])
  }

  /** A database nobody has migrated yet. */
  const EMPTY := State([], {}, None, 0, map[], map[])

  /** Over every run of any number of runners, with errors, lost sessions and crashes at every
      step: the committed effects are a prefix of the ordered list, so each is committed at
      most once; they are recorded exactly when committed; effects never go away; no pooled
      connection owns the lock; and once a runner has returned without error the database is
      in the state of one clean run. */
  lemma {:induction false} EveryRunIsSafe(names: seq<string>, s: State, steps: seq<Step>)
    requires Distinct(names) && Inv(names, s) && Run(names, s, steps)
    ensures var end := After(names, s, steps);
            && Inv(names, end) && AppliedPrefix(names, end) && PoolUnlocked(end)
            && s.effects <= end.effects
            && (forall r :: r in end.runners && end.runners[r].phase == Returned(true) ==> end.effects == names)
    decreases |steps|
  {
    if steps == [] {
      assert forall r :: r in s.runners ==> RunnerOk(names, s, r);
    } else {
      StepKeepsInv(names, s, steps[0]);
      EveryRunIsSafe(names, Next(names, s, steps[0]), steps[1..]);
    }
  }

  lemma EmptyIsInv(names: seq<string>)
    ensures Inv(names, EMPTY)
  {
  }

  // ---------------------------------------------------------------- a rerun completes

  predicate OfRunner(step: Step, r: RunnerId) {
    !step.SessionEnds? && step.r == r
  }

  /** One clean run: every file in effect and recorded, the runner back with success, the lock
      free again. */
  ghost predicate CleanlyDone(names: seq<string>, s: State, r: RunnerId) {
    && s.effects == names && s.recorded == Set(names) && s.holder.None?
    && r in s.runners && s.runners[r].phase == Returned(true)
  }

  /** Steps of this runner alone that lead there. */
  ghost predicate Completes(names: seq<string>, s: State, r: RunnerId, steps: seq<Step>) {
    Run(names, s, steps) && (forall step :: step in steps ==> OfRunner(step, r)) && CleanlyDone(names, After(names, s, steps), r)
  }

  lemma RunCons(names: seq<string>, s: State, step: Step, r: RunnerId, rest: seq<Step>) returns (steps: seq<Step>)
    requires Enabled(names, s, step) && OfRunner(step, r) && Completes(names, Next(names, s, step), r, rest)
    ensures Completes(names, s, r, steps)
  {
    steps := [step] + rest;
    assert steps[1..] == rest;
  }

  /** With the list worked through the runner unlocks and returns. */
  lemma LastSteps(names: seq<string>, s: State, r: RunnerId) returns (steps: seq<Step>)
    requires Distinct(names) && Inv(names, s) && Alive(s, r)
    requires s.runners[r].phase.Between? && s.runners[r].phase.next >= |names|
    ensures Completes(names, s, r, steps)
  {
    var s1 := Next(names, s, AllDone(r));
    StepKeepsInv(names, s, AllDone(r));
    assert RunnerOk(names, s1, r);
    var s2 := Next(names, s1, Unlocked(r));
    assert CleanlyDone(names, s2, r);
    assert Completes(names, s2, r, []);
    steps := RunCons(names, s1, Unlocked(r), r, []);
    steps := RunCons(names, s, AllDone(r), r, steps);
  }

  /** Undisturbed, a runner past the lock works through the rest of the list. */
  lemma {:induction false} RunnerCompletes(names: seq<string>, s: State, r: RunnerId) returns (steps: seq<Step>)
    requires Distinct(names) && Inv(names, s) && Alive(s, r) && s.runners[r].phase.Between?
    ensures Completes(names, s, r, steps)
    decreases |names| - s.runners[r].phase.next, 0
  {
    assert RunnerOk(names, s, r);
    var k := s.runners[r].phase.next;
    if k >= |names| {
      steps := LastSteps(names, s, r);
    } else {
      var s1 := Next(names, s, Begin(r));
      StepKeepsInv(names, s, Begin(r));
      var s2 := Next(names, s1, Checked(r));
      StepKeepsInv(names, s1, Checked(r));
      if s2.runners[r].phase.Committing? {
        steps := CommitCompletes(names, s2, r);
      } else {
        var s3 := Next(names, s2, Executed(r));
        StepKeepsInv(names, s2, Executed(r));
        var s4 := Next(names, s3, Recorded(r));
        StepKeepsInv(names, s3, Recorded(r));
        steps := CommitCompletes(names, s4, r);
        steps := RunCons(names, s3, Recorded(r), r, steps);
        steps := RunCons(names, s2, Executed(r), r, steps);
      }
      steps := RunCons(names, s1, Checked(r), r, steps);
      steps := RunCons(names, s, Begin(r), r, steps);
    }
  }

  lemma {:induction false} CommitCompletes(names: seq<string>, s: State, r: RunnerId) returns (steps: seq<Step>)
    requires Distinct(names) && Inv(names, s) && CanCommit(names, s, r)
    ensures Completes(names, s, r, steps)
    decreases |names| - (s.runners[r].phase.file + 1), 1
  {
    StepKeepsInv(names, s, Committed(r));
    steps := RunnerCompletes(names, Next(names, s, Committed(r)), r);
    steps := RunCons(names, s, Committed(r), r, steps);
  }

  /** After any history, a new runner on a new connection that finds the lock free can by its
      own steps alone reach exactly the state of one clean run, returning success with the lock
      free: a crash followed by a rerun loses and repeats nothing. */
  lemma RerunReachesCleanState(names: seq<string>, s: State, r: RunnerId, c: ConnId) returns (steps: seq<Step>)
    requires Distinct(names) && Inv(names, s)
    requires r !in s.runners && c !in s.conns && s.holder.None?
    ensures Completes(names, s, r, steps)
  {
    var s1 := Next(names, s, Start(r, c));
    StepKeepsInv(names, s, Start(r, c));
    var s2 := Next(names, s1, LockGranted(r));
    StepKeepsInv(names, s1, LockGranted(r));
    var s3 := Next(names, s2, TableCreated(r));
    StepKeepsInv(names, s2, TableCreated(r));
    steps := RunnerCompletes(names, s3, r);
    steps := RunCons(names, s2, TableCreated(r), r, steps);
    steps := RunCons(names, s1, LockGranted(r), r, steps);
    steps := RunCons(names, s, Start(r, c), r, steps);
  }
}
