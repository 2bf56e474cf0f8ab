/** Previewed structure changes, api/internal/schema/service.go: signed tokens, the marks of
    those that were used, and the running of their statements. */
module SchemaService {
  import opened Wrappers
  import opened Text

  datatype Dialect = MySQL | Postgres

  datatype Statement = Statement(sql: string, destructive: bool)

  datatype TokenData = TokenData(dialect: Dialect, scope: string, fingerprint: string, expires: int, ddl: seq<Statement>)

  /** Signing, and what a token text reads as if it is signed. */
  datatype Signer = Signer(sign: TokenData -> string, read: string -> Option<TokenData>)

  ghost predicate Faithful(s: Signer) {
    forall d :: s.read(s.sign(d)) == Some(d)
  }

  /** No two texts read as the same data. */
  ghost predicate OneText(s: Signer) {
    forall t, u :: s.read(t).Some? && s.read(t) == s.read(u) ==> t == u
  }

  datatype Error =
    | InvalidToken | ExpiredToken | StructureDrift | ConfirmationRequired
    | BeginFailed | StatementFailed | CommitFailed

  /** What a caller of `Execute` sends. `presented` is the fingerprint of the table as it was
      just read. */
  datatype Request = Request(scope: string, presented: string, token: string, confirmed: bool)

  // ---------------------------------------------------------------- tokens

  /** The parts of `sign` and `verify`: `pack` is the encoded JSON, `mac` the code over it. */
  datatype Codec = Codec(pack: TokenData -> string, unpack: string -> Option<TokenData>,
                         mac: string -> string, encode: string -> string, decode: string -> Option<string>)

  function Signed(c: Codec, d: TokenData): string {
    c.pack(d) + "." + c.encode(c.mac(c.pack(d)))
  }

  function Verified(c: Codec, token: string): Option<TokenData> {
    var parts := Split(token, ".");
    if |parts| != 2 || c.decode(parts[1]) != Some(c.mac(parts[0])) then None else c.unpack(parts[0])
  }

  function SignerOf(c: Codec): Signer {
    Signer(d => Signed(c, d), t => Verified(c, t))
  }

  ghost predicate Lawful(c: Codec) {
    && (forall d :: c.unpack(c.pack(d)) == Some(d) && '.' !in c.pack(d))
    && (forall m :: c.decode(c.encode(m)) == Some(m) && '.' !in c.encode(m))
  }

  /** Decoding passes over line feeds. */
  ghost predicate PassesOverLineFeeds(c: Codec) {
    forall t :: c.decode(t + "\n") == c.decode(t)
  }

  lemma TwoParts(x: string, y: string)
    requires '.' !in x && '.' !in y
    ensures Split(x + "." + y, ".") == [x, y]
  {
    var t := x + "." + y;
    assert OccursAt(t, ".", |x|);
    NoDot(t, |x|);
    NoDot(y, |y|);
    SplitAt(t, ".", x, y);
  }

  lemma NoDot(t: string, n: nat)
    requires n <= |t| && forall k :: 0 <= k < n ==> t[k] != '.'
    ensures forall j :: j < n ==> !OccursAt(t, ".", j)
  {
    forall j | 0 <= j < n
      ensures !OccursAt(t, ".", j)
    {
      assert t[j..j + 1][0] == t[j];
    }
  }

  lemma SignedReads(c: Codec)
    requires Lawful(c)
    ensures Faithful(SignerOf(c))
  {
    forall d
      ensures Verified(c, Signed(c, d)) == Some(d)
    {
      TwoParts(c.pack(d), c.encode(c.mac(c.pack(d))));
    }
  }

  /** A token with a line feed after it is a second text of the same preview. */
  lemma LineFeedIsSecondText(c: Codec, d: TokenData)
    requires Lawful(c) && PassesOverLineFeeds(c)
    ensures SignerOf(c).read(Signed(c, d) + "\n") == Some(d) && !OneText(SignerOf(c))
  {
    var packed, code := c.pack(d), c.encode(c.mac(c.pack(d)));
    TwoParts(packed, code + "\n");
    assert Signed(c, d) + "\n" == packed + "." + (code + "\n");
    SignedReads(c);
    var s := SignerOf(c);
    assert s.read(s.sign(d)) == s.read(Signed(c, d) + "\n");
  }

  // ---------------------------------------------------------------- admission

  predicate Destructive(ddl: seq<Statement>) {
    exists i :: 0 <= i < |ddl| && ddl[i].destructive
  }

  /** `verify` and the checks of `Execute` before the token is marked. */
  function Checked(s: Signer, now: int, request: Request): Result<TokenData, Error> {
    match s.read(request.token)
    case None => Err(InvalidToken)
    case Some(d) =>
      if now > d.expires then Err(ExpiredToken)
      else if d.scope != request.scope then Err(InvalidToken)
      else if d.fingerprint != request.presented then Err(StructureDrift)
      else if Destructive(d.ddl) && !request.confirmed then Err(ConfirmationRequired)
      else Ok(d)
  }

  /** The checks and the mark: a token marked before is refused. */
  function Admitted(s: Signer, now: int, used: set<string>, request: Request): Result<TokenData, Error> {
    var r := Checked(s, now, request);
    if r.Ok? && request.token in used then Err(InvalidToken) else r
  }

  // ---------------------------------------------------------------- one execution

  datatype Report = Report(sql: string, success: bool)

  /** What can go wrong: the begin, the i-th statement, the commit. */
  datatype Faults = Faults(begin: bool, statement: nat -> bool, commit: bool)

  function Sqls(ddl: seq<Statement>): (r: seq<string>)
    ensures |r| == |ddl|
  {
    seq(|ddl|, i requires 0 <= i < |ddl| => ddl[i].sql)
  }

  /** How many statements succeed before one fails. */
  function Successes(ddl: seq<Statement>, fails: nat -> bool, i: nat): (n: nat)
    requires i <= |ddl|
    ensures i <= n <= |ddl|
    ensures forall k :: i <= k < n ==> !fails(k)
    ensures n < |ddl| ==> fails(n)
    decreases |ddl| - i
  {
    if i == |ddl| || fails(i) then i else Successes(ddl, fails, i + 1)
  }

  /** One success per statement that went through, and the failure that ended it. */
  function Reports(ddl: seq<Statement>, n: nat): (r: seq<Report>)
    requires n <= |ddl|
  {
    seq(n, i requires 0 <= i < n => Report(ddl[i].sql, true)) + if n < |ddl| then [Report(ddl[n].sql, false)] else []
  }

  /** The database: statements in effect, and those of an open transaction. */
  class Database {
    var applied: seq<string>
    var pending: Option<seq<string>>

    constructor ()
      ensures applied == [] && pending == None
    {
      applied, pending := [], None;
    }

    method Begin()
      requires pending.None?
      modifies this
      ensures applied == old(applied) && pending == Some([])
    {
      pending := Some([]);
    }

    method Exec(sql: string, fails: bool)
      modifies this
      ensures fails ==> applied == old(applied) && pending == old(pending)
      ensures !fails && old(pending).None? ==> applied == old(applied) + [sql] && pending == None
      ensures !fails && old(pending).Some? ==> applied == old(applied) && pending == Some(old(pending).value + [sql])
    {
      if fails {
        return;
      }
      if pending.None? {
        applied := applied + [sql];
      } else {
        pending := Some(pending.value + [sql]);
      }
    }

    method Commit(fails: bool)
      requires pending.Some?
      modifies this
      ensures pending == None && applied == if fails then old(applied) else old(applied) + old(pending).value
    {
      if !fails {
        applied := applied + pending.value;
      }
      pending := None;
    }

    method Rollback()
      modifies this
      ensures pending == None && applied == old(applied)
    {
      pending := None;
    }
  }

  /** What one admitted execution reports and leaves applied. */
  function Effect(d: TokenData, faults: Faults): (seq<Report>, Option<Error>, seq<string>) {
    var n := Successes(d.ddl, faults.statement, 0);
    if d.dialect == Postgres && faults.begin then ([], Some(BeginFailed), [])
    else if n < |d.ddl| then
      (Reports(d.ddl, n), Some(StatementFailed), if d.dialect == Postgres then [] else Sqls(d.ddl)[..n])
    else if d.dialect == Postgres && faults.commit then (Reports(d.ddl, n), Some(CommitFailed), [])
    else (Reports(d.ddl, n), None, Sqls(d.ddl))
  }

  class Service {
    const signer: Signer
    const ttl: int
    var used: set<string>

    /** `NewService`: ten minutes when no lifetime is given. */
    constructor (signer: Signer, ttl: int)
      ensures this.signer == signer && this.ttl == (if ttl <= 0 then 600 else ttl) && used == {}
    {
      this.signer := signer;
      this.ttl := if ttl <= 0 then 600 else ttl;
      used := {};
    }

    /** `Preview`, once the statements are generated. */
    method Preview(now: int, dialect: Dialect, scope: string, fingerprint: string, ddl: seq<Statement>) returns (token: string)
      requires Faithful(signer)
      ensures signer.read(token) == Some(TokenData(dialect, scope, fingerprint, now + ttl, ddl))
    {
      token := signer.sign(TokenData(dialect, scope, fingerprint, now + ttl, ddl));
    }

    method Execute(now: int, db: Database, request: Request, faults: Faults) returns (out: seq<Report>, error: Option<Error>)
      requires db.pending.None?
      modifies this, db
      ensures db.pending.None?
      ensures var admitted := Admitted(signer, now, old(used), request);
              match admitted
              case Err(e) => out == [] && error == Some(e) && used == old(used) && db.applied == old(db.applied)
              case Ok(d) => used == old(used) + {request.token} && out == Effect(d, faults).0 && error == Effect(d, faults).1
                            && db.applied == old(db.applied) + Effect(d, faults).2
    {
      out := [];
      var checked := Checked(signer, now, request);
      if checked.Err? {
        return [], Some(checked.error);
      }
      if request.token in used {
        return [], Some(InvalidToken);
      }
      used := used + {request.token};
      var d := checked.value;
      if d.dialect == Postgres {
        if faults.begin {
          return [], Some(BeginFailed);
        }
        db.Begin();
      }
      out, error := RunStatements(d, db, faults);
      if error.Some? {
        return;
      }
      if d.dialect == Postgres {
        db.Commit(faults.commit);
        if faults.commit {
          error := Some(CommitFailed);
        }
      }
    }

    /** The loop over the statements. A failure ends it, and the transaction if there is one. */
    static method RunStatements(d: TokenData, db: Database, faults: Faults) returns (out: seq<Report>, error: Option<Error>)
      requires db.pending == if d.dialect == Postgres then Some([]) else None
      modifies db
      ensures var n := Successes(d.ddl, faults.statement, 0);
              && out == Reports(d.ddl, n) && error == (if n < |d.ddl| then Some(StatementFailed) else None)
              && db.pending == (if n == |d.ddl| && d.dialect == Postgres then Some(Sqls(d.ddl)) else None)
              && db.applied == old(db.applied) + if d.dialect == MySQL then Sqls(d.ddl)[..n] else []
    {
      out := [];
      for i := 0 to |d.ddl|
        invariant Successes(d.ddl, faults.statement, 0) == Successes(d.ddl, faults.statement, i)
        invariant |out| == i && forall k :: 0 <= k < i ==> out[k] == Report(d.ddl[k].sql, true)
        invariant db.pending == if d.dialect == Postgres then Some(Sqls(d.ddl)[..i]) else None
        invariant db.applied == old(db.applied) + if d.dialect == MySQL then Sqls(d.ddl)[..i] else []
      {
        var st := d.ddl[i];
        db.Exec(st.sql, faults.statement(i));
        if faults.statement(i) {
          out := out + [Report(st.sql, false)];
          if d.dialect == Postgres {
            db.Rollback();
          }
          return out, Some(StatementFailed);
        }
        assert Sqls(d.ddl)[..i + 1] == Sqls(d.ddl)[..i] + [st.sql];
        out := out + [Report(st.sql, true)];
      }
      assert Sqls(d.ddl)[..|d.ddl|] == Sqls(d.ddl);
      error := None;
    }
  }

  // ---------------------------------------------------------------- what an execution leaves

  function Succeeded(reports: seq<Report>): seq<string> {
    if reports == [] then []
    else (if reports[0].success then [reports[0].sql] else []) + Succeeded(reports[1..])
  }

  lemma {:induction false} SucceededReports(ddl: seq<Statement>, n: nat)
    requires n <= |ddl|
    ensures Succeeded(Reports(ddl, n)) == Sqls(ddl)[..n]
  {
    SucceededFrom(ddl, n, 0);
    assert Reports(ddl, n)[0..] == Reports(ddl, n);
    assert Sqls(ddl)[0..n] == Sqls(ddl)[..n];
  }

  lemma {:induction false} SucceededFrom(ddl: seq<Statement>, n: nat, i: nat)
    requires i <= n <= |ddl|
    ensures Succeeded(Reports(ddl, n)[i..]) == Sqls(ddl)[i..n]
    decreases n - i
  {
    var all := Reports(ddl, n);
    if i < n {
      SucceededFrom(ddl, n, i + 1);
      assert all[i..][0] == Report(ddl[i].sql, true) && all[i..][1..] == all[i + 1..];
      assert Sqls(ddl)[i..n] == [ddl[i].sql] + Sqls(ddl)[i + 1..n];
    } else if n < |ddl| {
      assert all[n..] == [Report(ddl[n].sql, false)];
      assert all[n..][1..] == [];
    } else {
      assert all[n..] == [];
    }
  }

  /** On MySQL exactly the statements reported successful are applied, a prefix of the list. On
      PostgreSQL all of them are applied or none, and all exactly when no error is reported. */
  lemma EffectsAre(d: TokenData, faults: Faults)
    ensures var (reports, error, applied) := Effect(d, faults);
            && (d.dialect == MySQL ==> applied == Succeeded(reports) && applied <= Sqls(d.ddl))
            && (d.dialect == Postgres ==> applied == (if error.None? then Sqls(d.ddl) else []))
            && (error.None? ==> Succeeded(reports) == Sqls(d.ddl))
  {
    var n := Successes(d.ddl, faults.statement, 0);
    SucceededReports(d.ddl, n);
    assert Sqls(d.ddl)[..|d.ddl|] == Sqls(d.ddl);
  }

  /** On PostgreSQL the reports of a failed run still call the earlier statements successful,
      though they were rolled back: exactly when some statement went through before the failure. */
  lemma RolledBackReportedExactly(d: TokenData, faults: Faults)
    requires d.dialect == Postgres && !faults.begin && Effect(d, faults).1.Some?
    ensures Succeeded(Effect(d, faults).0) != Effect(d, faults).2 <==> Successes(d.ddl, faults.statement, 0) > 0
  {
    SucceededReports(d.ddl, Successes(d.ddl, faults.statement, 0));
  }

  // ---------------------------------------------------------------- interleaved executions

  datatype Phase =
    | Opened                 // the fingerprint is read; the checks come next
    | Refused(error: Error)
    | Lost                   // the service ended before the checks
    | Running(done: nat)     // admitted; so many statements went through
    | Failed(done: nat)
    | Committed

  datatype Execution = Execution(request: Request, phase: Phase, applied: seq<string>)

  /** `issued` is what was previewed so far, `structure` the fingerprint of the table now. */
  datatype State = State(ttl: int, issued: set<TokenData>, used: set<string>, now: int, structure: string,
                         execs: map<nat, Execution>)

  datatype Step =
    | Tick(seconds: nat)
    | ChangeStructure(fingerprint: string)
    | Preview(dialect: Dialect, scope: string, before: string, ddl: seq<Statement>)
    | Open(e: nat, scope: string, token: string, confirmed: bool)
    | Admit(e: nat)
    | RunStatement(e: nat)
    | FailStatement(e: nat)
    | Finish(e: nat, fails: bool)
    | Restart

  function Data(s: Signer, x: Execution): TokenData
    requires s.read(x.request.token).Some?
  {
    s.read(x.request.token).value
  }

  predicate Started(x: Execution) {
    x.phase.Running? || x.phase.Failed? || x.phase.Committed?
  }

  predicate Runs(s: Signer, st: State, e: nat) {
    e in st.execs && st.execs[e].phase.Running? && s.read(st.execs[e].request.token).Some?
    && st.execs[e].phase.done <= |Data(s, st.execs[e]).ddl|
  }

  /** Only previews are signed: a text that reads as some data was made from a preview. */
  predicate Genuine(s: Signer, st: State, token: string) {
    s.read(token).Some? ==> s.read(token).value in st.issued
  }

  predicate Enabled(s: Signer, st: State, step: Step) {
    match step
    case Tick(_) => true
    case ChangeStructure(_) => true
    case Preview(_, _, _, _) => true
    case Open(e, _, token, _) => e !in st.execs && Genuine(s, st, token)
    case Admit(e) => e in st.execs && st.execs[e].phase == Opened
    case RunStatement(e) => Runs(s, st, e) && st.execs[e].phase.done < |Data(s, st.execs[e]).ddl|
    case FailStatement(e) => Runs(s, st, e) && st.execs[e].phase.done < |Data(s, st.execs[e]).ddl|
    case Finish(e, fails) => Runs(s, st, e) && st.execs[e].phase.done == |Data(s, st.execs[e]).ddl|
                             && (fails ==> Data(s, st.execs[e]).dialect == Postgres)
    case Restart => true
  }

  function With(st: State, e: nat, x: Execution): State {
    st.(execs := st.execs[e := x])
  }

  /** What a restart of the service does to an execution. */
  function Interrupted(x: Execution): Execution {
    match x.phase
    case Opened => x.(phase := Lost)
    case Running(done) => x.(phase := Failed(done))
    case _ => x
  }

  function Previewed(st: State, step: Step): TokenData
    requires step.Preview?
  {
    TokenData(step.dialect, step.scope, step.before, st.now + st.ttl, step.ddl)
  }

  function Next(s: Signer, st: State, step: Step): State
    requires Enabled(s, st, step)
  {
    match step
    case Tick(seconds) => st.(now := st.now + seconds)
    case ChangeStructure(fingerprint) => st.(structure := fingerprint)
    case Preview(_, _, _, _) => st.(issued := st.issued + {Previewed(st, step)})
    case Open(e, scope, token, confirmed) =>
      With(st, e, Execution(Request(scope, st.structure, token, confirmed), Opened, []))
    case Admit(e) =>
      var x := st.execs[e];
      var r := Admitted(s, st.now, st.used, x.request);
      if r.Err? then With(st, e, x.(phase := Refused(r.error)))
      else With(st, e, x.(phase := Running(0))).(used := st.used + {x.request.token})
    case RunStatement(e) =>
      var x := st.execs[e];
      var d := Data(s, x);
      var sql := d.ddl[x.phase.done].sql;
      With(st, e, x.(phase := Running(x.phase.done + 1), applied := if d.dialect == MySQL then x.applied + [sql] else x.applied))
    case FailStatement(e) => With(st, e, st.execs[e].(phase := Failed(st.execs[e].phase.done)))
    case Finish(e, fails) =>
      var x := st.execs[e];
      if fails then With(st, e, x.(phase := Failed(x.phase.done)))
      else With(st, e, x.(phase := Committed, applied := Sqls(Data(s, x).ddl)))
    case Restart => st.(used := {}, execs := map e | e in st.execs :: Interrupted(st.execs[e]))
  }

  function Initial(ttl: int, now: int, structure: string): State {
    State(ttl, {}, {}, now, structure, map[])
  }

  ghost predicate CanRun(s: Signer, st: State, steps: seq<Step>)
    decreases |steps|
  {
    steps == [] || (Enabled(s, st, steps[0]) && CanRun(s, Next(s, st, steps[0]), steps[1..]))
  }

  function After(s: Signer, st: State, steps: seq<Step>): State
    requires CanRun(s, st, steps)
    decreases |steps|
  {
    if steps == [] then st else After(s, Next(s, st, steps[0]), steps[1..])
  }

  // ---------------------------------------------------------------- what every run keeps

  /** A started execution was admitted: its token is signed, for this scope, previewed on the
      structure it was presented with, and confirmed if destructive. */
  ghost predicate Rightful(s: Signer, x: Execution) {
    s.read(x.request.token).Some?
    && var d := Data(s, x);
       d.scope == x.request.scope && d.fingerprint == x.request.presented
       && (Destructive(d.ddl) ==> x.request.confirmed)
  }

  /** What is applied so far: on MySQL the statements that went through; on PostgreSQL nothing
      before the commit and everything after it. */
  ghost predicate AppliedRight(s: Signer, x: Execution)
    requires s.read(x.request.token).Some?
  {
    var d := Data(s, x);
    match x.phase
    case Opened => x.applied == []
    case Refused(_) => x.applied == []
    case Lost => x.applied == []
    case Running(k) => k <= |d.ddl| && x.applied == if d.dialect == MySQL then Sqls(d.ddl)[..k] else []
    case Failed(k) => k <= |d.ddl| && x.applied == if d.dialect == MySQL then Sqls(d.ddl)[..k] else []
    case Committed => x.applied == Sqls(d.ddl)
  }

  ghost predicate ExecutionOk(s: Signer, x: Execution) {
    if Started(x) then Rightful(s, x) && AppliedRight(s, x) else x.applied == []
  }

  ghost predicate AllOk(s: Signer, st: State) {
    forall e :: e in st.execs ==> ExecutionOk(s, st.execs[e])
  }

  ghost predicate StartedAreMarked(st: State) {
    forall e :: e in st.execs && Started(st.execs[e]) ==> st.execs[e].request.token in st.used
  }

  ghost predicate OneStartEach(st: State) {
    forall e, f :: e in st.execs && f in st.execs && BothStarted(st.execs[e], st.execs[f]) ==> e == f
  }

  predicate BothStarted(x: Execution, y: Execution) {
    Started(x) && Started(y) && x.request.token == y.request.token
  }

  lemma WithOk(s: Signer, st: State, e: nat, x: Execution)
    requires AllOk(s, st) && ExecutionOk(s, x)
    ensures AllOk(s, With(st, e, x))
  {
  }

  lemma RunStatementOk(s: Signer, st: State, e: nat)
    requires AllOk(s, st) && Enabled(s, st, RunStatement(e))
    ensures AllOk(s, Next(s, st, RunStatement(e)))
  {
    var x := st.execs[e];
    var d := Data(s, x);
    assert ExecutionOk(s, x);
    assert Sqls(d.ddl)[..x.phase.done + 1] == Sqls(d.ddl)[..x.phase.done] + [d.ddl[x.phase.done].sql];
    WithOk(s, st, e, Next(s, st, RunStatement(e)).execs[e]);
  }

  lemma StepOk(s: Signer, st: State, step: Step)
    requires AllOk(s, st) && Enabled(s, st, step)
    ensures AllOk(s, Next(s, st, step))
  {
    if step.RunStatement? {
      RunStatementOk(s, st, step.e);
    } else if step.Restart? {
      forall e | e in st.execs
        ensures ExecutionOk(s, Next(s, st, step).execs[e])
      {
        assert ExecutionOk(s, st.execs[e]);
      }
    } else if step.Open? || step.Admit? || step.FailStatement? || step.Finish? {
      var x := Next(s, st, step).execs[step.e];
      if !step.Open? {
        assert ExecutionOk(s, st.execs[step.e]);
      }
      WithOk(s, st, step.e, x);
      assert Next(s, st, step).execs == With(st, step.e, x).execs;
    }
  }

  lemma StepStartsOnce(s: Signer, st: State, step: Step)
    requires StartedAreMarked(st) && OneStartEach(st) && Enabled(s, st, step) && !step.Restart?
    ensures StartedAreMarked(Next(s, st, step)) && OneStartEach(Next(s, st, step))
  {
  }

  /** In every run of previews, structure changes and executions, interleaved statement by
      statement, the applied statements are right at every point: none of a refused request;
      on MySQL those that went through, on PostgreSQL all or none; and whatever started was
      admitted rightfully. */
  lemma {:induction false} EveryRunApplies(s: Signer, st: State, steps: seq<Step>)
    requires AllOk(s, st) && CanRun(s, st, steps)
    ensures AllOk(s, After(s, st, steps))
    decreases |steps|
  {
    if steps != [] {
      StepOk(s, st, steps[0]);
      EveryRunApplies(s, Next(s, st, steps[0]), steps[1..]);
    }
  }

  /** Without a restart of the service the statements of one token text start at most once. */
  lemma {:induction false} EveryRunStartsOnce(s: Signer, st: State, steps: seq<Step>)
    requires StartedAreMarked(st) && OneStartEach(st) && CanRun(s, st, steps) && Restart !in steps
    ensures StartedAreMarked(After(s, st, steps)) && OneStartEach(After(s, st, steps))
    decreases |steps|
  {
    if steps != [] {
      assert steps[0] in steps;
      StepStartsOnce(s, st, steps[0]);
      EveryRunStartsOnce(s, Next(s, st, steps[0]), steps[1..]);
    }
  }

  lemma First(s: Signer, st: State, a: Step, rest: seq<Step>)
    requires Enabled(s, st, a) && CanRun(s, Next(s, st, a), rest)
    ensures CanRun(s, st, [a] + rest) && After(s, st, [a] + rest) == After(s, Next(s, st, a), rest)
  {
    assert ([a] + rest)[1..] == rest;
  }

  // ---------------------------------------------------------------- only previews run

  /** `d` was previewed in this run, and its time began to count then. */
  ghost predicate PreviewedIn(s: Signer, st: State, steps: seq<Step>, d: TokenData)
    requires CanRun(s, st, steps)
    decreases |steps|
  {
    steps != []
    && ((steps[0].Preview? && Previewed(st, steps[0]) == d) || PreviewedIn(s, Next(s, st, steps[0]), steps[1..], d))
  }

  lemma {:induction false} IssuedExactly(s: Signer, st: State, steps: seq<Step>, d: TokenData)
    requires CanRun(s, st, steps)
    ensures d in After(s, st, steps).issued <==> d in st.issued || PreviewedIn(s, st, steps, d)
    decreases |steps|
  {
    if steps != [] {
      IssuedExactly(s, Next(s, st, steps[0]), steps[1..], d);
    }
  }

  ghost predicate AllGenuine(s: Signer, st: State) {
    forall e :: e in st.execs ==> Genuine(s, st, st.execs[e].request.token)
  }

  lemma {:induction false} StaysGenuine(s: Signer, st: State, steps: seq<Step>)
    requires AllGenuine(s, st) && CanRun(s, st, steps)
    ensures AllGenuine(s, After(s, st, steps))
    decreases |steps|
  {
    if steps != [] {
      StaysGenuine(s, Next(s, st, steps[0]), steps[1..]);
    }
  }

  /** What starts in a run of the new service was previewed in it, for the scope and on the
      structure it was presented with. */
  lemma StartedWerePreviewed(s: Signer, ttl: int, now: int, structure: string, steps: seq<Step>, e: nat)
    requires var st := Initial(ttl, now, structure);
             CanRun(s, st, steps) && e in After(s, st, steps).execs && Started(After(s, st, steps).execs[e])
    ensures var st := Initial(ttl, now, structure);
            var x := After(s, st, steps).execs[e];
            && Rightful(s, x) && PreviewedIn(s, st, steps, Data(s, x))
            && Data(s, x).scope == x.request.scope && Data(s, x).fingerprint == x.request.presented
  {
    var st := Initial(ttl, now, structure);
    EveryRunApplies(s, st, steps);
    StaysGenuine(s, st, steps);
    IssuedExactly(s, st, steps, Data(s, After(s, st, steps).execs[e]));
  }

  // ---------------------------------------------------------------- each preview at most once

  ghost predicate OneStartPerPreview(s: Signer, st: State) {
    forall e, f :: e in st.execs && f in st.execs && BothStartedOf(s, st.execs[e], st.execs[f]) ==> e == f
  }

  predicate BothStartedOf(s: Signer, x: Execution, y: Execution) {
    Started(x) && Started(y) && s.read(x.request.token) == s.read(y.request.token)
  }

  ghost predicate RunsStartOnce(s: Signer, ttl: int, now: int, structure: string) {
    forall steps: seq<Step> :: CanRun(s, Initial(ttl, now, structure), steps) && Restart !in steps ==>
      OneStartPerPreview(s, After(s, Initial(ttl, now, structure), steps))
  }

  lemma OneTextStartsOnce(s: Signer, ttl: int, now: int, structure: string)
    requires OneText(s)
    ensures RunsStartOnce(s, ttl, now, structure)
  {
    var st := Initial(ttl, now, structure);
    forall steps: seq<Step> | CanRun(s, st, steps) && Restart !in steps
      ensures OneStartPerPreview(s, After(s, st, steps))
    {
      EveryRunApplies(s, st, steps);
      EveryRunStartsOnce(s, st, steps);
      var last := After(s, st, steps);
      forall e, f | e in last.execs && f in last.execs && BothStartedOf(s, last.execs[e], last.execs[f])
        ensures e == f
      {
        assert ExecutionOk(s, last.execs[e]);
        assert BothStarted(last.execs[e], last.execs[f]);
      }
    }
  }

  /** Two texts of one preview start it twice, for the mark is on the text. */
  lemma TwoTextsStartTwice(s: Signer, t: string, u: string, ttl: int)
    requires ttl >= 0 && t != u && s.read(t).Some? && s.read(t) == s.read(u)
    ensures var d := s.read(t).value;
            var st := Initial(ttl, d.expires - ttl, d.fingerprint);
            var steps := [Preview(d.dialect, d.scope, d.fingerprint, d.ddl),
                          Open(0, d.scope, t, true), Admit(0), Open(1, d.scope, u, true), Admit(1)];
            && CanRun(s, st, steps) && Restart !in steps && !OneStartPerPreview(s, After(s, st, steps))
  {
    var d := s.read(t).value;
    var st := Initial(ttl, d.expires - ttl, d.fingerprint);
    var a, b, c := Preview(d.dialect, d.scope, d.fingerprint, d.ddl), Open(0, d.scope, t, true), Open(1, d.scope, u, true);
    var v := Next(s, st, a);
    assert Previewed(st, a) == d && Genuine(s, v, t) && Genuine(s, v, u);
    Four(s, v, b, Admit(0), c, Admit(1));
    First(s, st, a, [b, Admit(0), c, Admit(1)]);
    assert [a] + [b, Admit(0), c, Admit(1)] == [a, b, Admit(0), c, Admit(1)];
    var last := After(s, v, [b, Admit(0), c, Admit(1)]);
    assert 0 in last.execs && 1 in last.execs && BothStartedOf(s, last.execs[0], last.execs[1]);
  }

  /** Each preview starts at most once in every run without a restart exactly when no two
      texts read as the same data. */
  lemma StartsOncePerPreviewExactly(s: Signer)
    ensures OneText(s) <==> forall ttl, now, structure :: ttl > 0 ==> RunsStartOnce(s, ttl, now, structure)
  {
    if OneText(s) {
      forall ttl, now, structure | ttl > 0
        ensures RunsStartOnce(s, ttl, now, structure)
      {
        OneTextStartsOnce(s, ttl, now, structure);
      }
    } else {
      var t, u :| s.read(t).Some? && s.read(t) == s.read(u) && t != u;
      TwoTextsStartTwice(s, t, u, 600);
      assert !RunsStartOnce(s, 600, s.read(t).value.expires - 600, s.read(t).value.fingerprint);
    }
  }

  /** The text is the one that was signed for what it reads as, if it reads as anything. */
  predicate AsSigned(s: Signer, token: string) {
    s.read(token).Some? ==> token == s.sign(s.read(token).value)
  }

  /** Every token that comes in with a request of the run is as it was signed. */
  predicate PresentedAsSigned(s: Signer, steps: seq<Step>) {
    forall i :: 0 <= i < |steps| && steps[i].Open? ==> AsSigned(s, steps[i].token)
  }

  ghost predicate AllAsSigned(s: Signer, st: State) {
    forall e :: e in st.execs ==> AsSigned(s, st.execs[e].request.token)
  }

  lemma {:induction false} StaysAsSigned(s: Signer, st: State, steps: seq<Step>)
    requires AllAsSigned(s, st) && CanRun(s, st, steps) && PresentedAsSigned(s, steps)
    ensures AllAsSigned(s, After(s, st, steps))
    decreases |steps|
  {
    if steps != [] {
      assert steps[0].Open? ==> AsSigned(s, steps[0].token);
      StaysAsSigned(s, Next(s, st, steps[0]), steps[1..]);
    }
  }

  /** Whatever else the decoder reads: in a run without a restart whose tokens all come in as
      they were signed, each preview starts at most once. */
  lemma SignedTextsStartOnce(s: Signer, ttl: int, now: int, structure: string, steps: seq<Step>)
    requires CanRun(s, Initial(ttl, now, structure), steps) && Restart !in steps && PresentedAsSigned(s, steps)
    ensures OneStartPerPreview(s, After(s, Initial(ttl, now, structure), steps))
  {
    var st := Initial(ttl, now, structure);
    EveryRunApplies(s, st, steps);
    EveryRunStartsOnce(s, st, steps);
    StaysAsSigned(s, st, steps);
    var last := After(s, st, steps);
    forall e, f | e in last.execs && f in last.execs && BothStartedOf(s, last.execs[e], last.execs[f])
      ensures e == f
    {
      assert ExecutionOk(s, last.execs[e]);
      assert AsSigned(s, last.execs[e].request.token) && AsSigned(s, last.execs[f].request.token);
      assert BothStarted(last.execs[e], last.execs[f]);
    }
  }

  // ---------------------------------------------------------------- restarts

  function StartsOf(st: State, token: string): set<nat> {
    set e | e in st.execs && Started(st.execs[e]) && st.execs[e].request.token == token
  }

  function Unmarked(st: State, token: string): nat {
    if token in st.used then 0 else 1
  }

  function Restarts(steps: seq<Step>): nat {
    if steps == [] then 0 else (if steps[0].Restart? then 1 else 0) + Restarts(steps[1..])
  }

  lemma StepStarts(s: Signer, st: State, step: Step, token: string)
    requires Enabled(s, st, step)
    ensures var next := Next(s, st, step);
            StartsOf(next, token) == StartsOf(st, token) + if AdmitsToken(st, next, step, token) then {step.e} else {}
  {
    var next := Next(s, st, step);
    forall e | e in st.execs && !(step.Admit? && step.e == e)
      ensures e in next.execs && Started(next.execs[e]) == Started(st.execs[e])
      ensures next.execs[e].request == st.execs[e].request
    {
    }
  }

  predicate AdmitsToken(st: State, next: State, step: Step, token: string) {
    step.Admit? && step.e in st.execs && step.e in next.execs
    && Started(next.execs[step.e]) && st.execs[step.e].request.token == token
  }

  lemma StepCounts(s: Signer, st: State, step: Step, token: string)
    requires Enabled(s, st, step)
    ensures var next := Next(s, st, step);
            |StartsOf(next, token)| + Unmarked(next, token)
              <= |StartsOf(st, token)| + Unmarked(st, token) + if step.Restart? then 1 else 0
  {
    StepStarts(s, st, step, token);
  }

  /** A token starts at most once, and once more for each restart. */
  lemma {:induction false} StartsAreBounded(s: Signer, st: State, steps: seq<Step>, token: string)
    requires CanRun(s, st, steps)
    ensures |StartsOf(After(s, st, steps), token)| <= |StartsOf(st, token)| + Unmarked(st, token) + Restarts(steps)
    decreases |steps|
  {
    if steps != [] {
      StepCounts(s, st, steps[0], token);
      StartsAreBounded(s, Next(s, st, steps[0]), steps[1..], token);
    }
  }

  /** Marks are kept in memory: after a restart the same token starts again exactly when it
      passes the checks that do not look at the marks. */
  lemma RestartAdmitsExactly(s: Signer, st: State, e: nat, scope: string, token: string, confirmed: bool)
    requires e !in st.execs && Genuine(s, st, token)
    ensures var steps := [Restart, Open(e, scope, token, confirmed), Admit(e)];
            && CanRun(s, st, steps)
            && var last := After(s, st, steps);
               && last.execs.Keys == st.execs.Keys + {e} && last.execs[e].request.token == token
               && StartsOf(last, token) == StartsOf(st, token) + (if Started(last.execs[e]) then {e} else {})
               && last.(used := {}, execs := map[]) == st.(used := {}, execs := map[])
               && (Started(last.execs[e]) <==> Checked(s, st.now, Request(scope, st.structure, token, confirmed)).Ok?)
  {
    var o, a := Open(e, scope, token, confirmed), Admit(e);
    var u := Next(s, st, Restart);
    var v := Next(s, u, o);
    StepStarts(s, st, Restart, token);
    StepStarts(s, u, o, token);
    StepStarts(s, v, a, token);
    Three(s, st, Restart, o, a);
  }

  lemma Three(s: Signer, st: State, a: Step, b: Step, c: Step)
    requires Enabled(s, st, a) && Enabled(s, Next(s, st, a), b) && Enabled(s, Next(s, Next(s, st, a), b), c)
    ensures CanRun(s, st, [a, b, c]) && After(s, st, [a, b, c]) == Next(s, Next(s, Next(s, st, a), b), c)
  {
    var u := Next(s, st, a);
    First(s, Next(s, u, b), c, []);
    First(s, u, b, [c]);
    First(s, st, a, [b, c]);
    assert [c] + [] == [c] && [b] + [c] == [b, c] && [a] + [b, c] == [a, b, c];
  }

  /** So the bound is reached: any number of restarts lets the token start as many times more. */
  lemma {:induction false} RestartsStartAgain(s: Signer, st: State, e: nat, scope: string, token: string, confirmed: bool, n: nat)
    returns (steps: seq<Step>)
    requires Genuine(s, st, token) && Checked(s, st.now, Request(scope, st.structure, token, confirmed)).Ok?
    requires forall k :: k in st.execs ==> k < e
    ensures CanRun(s, st, steps) && Restarts(steps) == n
    ensures |StartsOf(After(s, st, steps), token)| == |StartsOf(st, token)| + n
    decreases n
  {
    if n == 0 {
      return [];
    }
    var o, a := Open(e, scope, token, confirmed), Admit(e);
    RestartAdmitsExactly(s, st, e, scope, token, confirmed);
    var last := After(s, st, [Restart, o, a]);
    var rest := RestartsStartAgain(s, last, e + 1, scope, token, confirmed, n - 1);
    steps := [Restart, o, a] + rest;
    OneRestart(o, a);
    RunsAppend(s, st, [Restart, o, a], rest);
    RestartsAppend([Restart, o, a], rest);
  }

  lemma OneRestart(b: Step, c: Step)
    requires !b.Restart? && !c.Restart?
    ensures Restarts([Restart, b, c]) == 1
  {
    RestartsAppend([b], [c]);
    RestartsAppend([Restart], [b, c]);
    assert [b] + [c] == [b, c] && [Restart] + [b, c] == [Restart, b, c];
  }

  lemma {:induction false} RunsAppend(s: Signer, st: State, steps: seq<Step>, rest: seq<Step>)
    requires CanRun(s, st, steps) && CanRun(s, After(s, st, steps), rest)
    ensures CanRun(s, st, steps + rest) && After(s, st, steps + rest) == After(s, After(s, st, steps), rest)
    decreases |steps|
  {
    if steps == [] {
      assert steps + rest == rest;
    } else {
      assert (steps + rest)[1..] == steps[1..] + rest;
      RunsAppend(s, Next(s, st, steps[0]), steps[1..], rest);
    }
  }

  lemma {:induction false} RestartsAppend(steps: seq<Step>, rest: seq<Step>)
    ensures Restarts(steps + rest) == Restarts(steps) + Restarts(rest)
  {
    if steps == [] {
      assert steps + rest == rest;
    } else {
      assert (steps + rest)[1..] == steps[1..] + rest;
      RestartsAppend(steps[1..], rest);
    }
  }

  // ---------------------------------------------------------------- late changes of structure

  lemma {:induction false} RequestStays(s: Signer, st: State, steps: seq<Step>, e: nat)
    requires CanRun(s, st, steps) && e in st.execs
    ensures e in After(s, st, steps).execs && After(s, st, steps).execs[e].request == st.execs[e].request
    decreases |steps|
  {
    if steps != [] {
      RequestStays(s, Next(s, st, steps[0]), steps[1..], e);
    }
  }

  /** Execution `e` has just started, and the table is not the one previewed. */
  predicate StartsDrifted(s: Signer, st: State, e: nat) {
    e in st.execs && Started(st.execs[e]) && s.read(st.execs[e].request.token).Some?
    && st.structure != Data(s, st.execs[e]).fingerprint
  }

  /** The comparison is with the structure read when the request came. Whatever happens between
      reading it and the checks, an admitted execution starts on another structure exactly when
      the structure at its start is not the one that was read. */
  lemma DriftedStartExactly(s: Signer, st: State, e: nat, scope: string, token: string, confirmed: bool, between: seq<Step>)
    requires Enabled(s, st, Open(e, scope, token, confirmed))
    requires var began := Next(s, st, Open(e, scope, token, confirmed));
             CanRun(s, began, between) && Enabled(s, After(s, began, between), Admit(e))
    ensures var mid := After(s, Next(s, st, Open(e, scope, token, confirmed)), between);
            StartsDrifted(s, Next(s, mid, Admit(e)), e) <==>
              && Admitted(s, mid.now, mid.used, Request(scope, st.structure, token, confirmed)).Ok?
              && mid.structure != st.structure
  {
    RequestStays(s, Next(s, st, Open(e, scope, token, confirmed)), between, e);
  }

  lemma Four(s: Signer, st: State, a: Step, b: Step, c: Step, d: Step)
    requires Enabled(s, st, a) && Enabled(s, Next(s, st, a), b) && Enabled(s, Next(s, Next(s, st, a), b), c)
    requires Enabled(s, Next(s, Next(s, Next(s, st, a), b), c), d)
    ensures CanRun(s, st, [a, b, c, d])
    ensures After(s, st, [a, b, c, d]) == Next(s, Next(s, Next(s, Next(s, st, a), b), c), d)
  {
    Three(s, Next(s, st, a), b, c, d);
    First(s, st, a, [b, c, d]);
    assert [a] + [b, c, d] == [a, b, c, d];
  }

  /** A run in which the structure changes after it was read and the statements start. */
  lemma LateDriftIsNotSeen(s: Signer, d: TokenData, other: string, ttl: int)
    requires Faithful(s) && ttl >= 0 && other != d.fingerprint
    ensures var steps := [Preview(d.dialect, d.scope, d.fingerprint, d.ddl), Open(0, d.scope, s.sign(d), true),
                          ChangeStructure(other), Admit(0)];
            var st := Initial(ttl, d.expires - ttl, d.fingerprint);
            CanRun(s, st, steps) && StartsDrifted(s, After(s, st, steps), 0)
  {
    var a, b := Preview(d.dialect, d.scope, d.fingerprint, d.ddl), Open(0, d.scope, s.sign(d), true);
    var st := Initial(ttl, d.expires - ttl, d.fingerprint);
    assert Previewed(st, a) == d;
    Four(s, st, a, b, ChangeStructure(other), Admit(0));
  }
}
