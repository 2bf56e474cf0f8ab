/** Concurrent membership changes of api/internal/identity/store.go as a state machine over
    the statements of their transactions.

    Isolation is READ COMMITTED: a statement reads the latest committed rows, a row lock
    taken by `FOR UPDATE` is held until the transaction ends, and a write becomes visible at
    commit. A row inserted again after a delete is a different row, so rows carry identities
    that are never reused. */
module TeamGuards {
  import opened Wrappers

  type RowId = nat
  type TxId = nat

  datatype Role = Member | Admin

  /** A row of `team_members`. */
  datatype Membership = Membership(team: string, user: string, role: Role)

  datatype Call =
    | SetTeamMemberRole(actor: string, team: string, user: string, role: Role)
    | RemoveTeamMember(actor: string, team: string, user: string)

  /** Where a transaction stands between two statements. */
  datatype Phase =
    | Authorizing                      // authorizeTeamAdminForUpdate comes next
    | LockingTarget                    // lockTeamMember comes next
    | Deciding                         // the target row is locked and its role is known
    | Guarding(pending: set<RowId>)    // the guard's FOR UPDATE is running; rows still to lock
    | Writing(guarded: bool)           // the UPDATE or DELETE and the commit come next

  datatype Tx = Tx(call: Call, phase: Phase, locks: set<RowId>, target: Option<RowId>)

  /** The committed tables and the transactions in flight. */
  datatype State = State(teams: set<string>, rows: map<RowId, Membership>, nextRow: RowId, txs: map<TxId, Tx>)

  datatype Step =
    | Begin(tx: TxId, call: Call)
    | AuthorizeSystemAdmin(tx: TxId)
    | AuthorizeTeamAdmin(tx: TxId, row: RowId)
    | LockTarget(tx: TxId, row: RowId)
    | StartGuard(tx: TxId)
    | SkipGuard(tx: TxId)
    | GuardLocks(tx: TxId, row: RowId)
    | GuardFindsDeleted(tx: TxId, row: RowId)
    | GuardPasses(tx: TxId, other: RowId)
    | Commit(tx: TxId)
    | Abort(tx: TxId)
    | UpsertMember(row: RowId, role: Role)
    | InsertMember(team: string, user: string, role: Role)
    | CreateTeam(team: string, creator: string)
    | DeleteTeam(team: string)

  // ---------------------------------------------------------------- the steps

  /** A row lock is granted when no other transaction holds it. */
  ghost predicate Free(s: State, tx: TxId, row: RowId) {
    forall t :: t in s.txs && t != tx ==> row !in s.txs[t].locks
  }

  ghost predicate HasRow(s: State, team: string, user: string) {
    exists r: RowId :: r in s.rows && s.rows[r].team == team && s.rows[r].user == user
  }

  predicate Demotes(call: Call) {
    call.RemoveTeamMember? || call.role != Admin
  }

  /** Whether the write can take the admin role away from the target. */
  predicate NeedsGuard(call: Call, current: Role) {
    current == Admin && Demotes(call)
  }

  function TeamRows(s: State, team: string): set<RowId> {
    set r | r in s.rows && s.rows[r].team == team
  }

  ghost predicate Enabled(s: State, step: Step) {
    match step
    case Begin(t, call) => t !in s.txs
    case AuthorizeSystemAdmin(t) => t in s.txs && s.txs[t].phase == Authorizing
    case AuthorizeTeamAdmin(t, r) =>
      && t in s.txs && s.txs[t].phase == Authorizing
      && r in s.rows && Free(s, t, r)
      && s.rows[r] == Membership(s.txs[t].call.team, s.txs[t].call.actor, Admin)
    case LockTarget(t, r) =>
      && t in s.txs && s.txs[t].phase == LockingTarget
      && r in s.rows && Free(s, t, r)
      && s.rows[r].team == s.txs[t].call.team && s.rows[r].user == s.txs[t].call.user
    case StartGuard(t) =>
      && t in s.txs && s.txs[t].phase == Deciding
      && s.txs[t].target.Some? && s.txs[t].target.value in s.rows
      && NeedsGuard(s.txs[t].call, s.rows[s.txs[t].target.value].role)
    case SkipGuard(t) =>
      && t in s.txs && s.txs[t].phase == Deciding
      && s.txs[t].target.Some? && s.txs[t].target.value in s.rows
      && !NeedsGuard(s.txs[t].call, s.rows[s.txs[t].target.value].role)
    case GuardLocks(t, r) =>
      && t in s.txs && s.txs[t].phase.Guarding? && r in s.txs[t].phase.pending
      && r in s.rows && Free(s, t, r)
    case GuardFindsDeleted(t, r) =>
      && t in s.txs && s.txs[t].phase.Guarding? && r in s.txs[t].phase.pending
      && r !in s.rows
    case GuardPasses(t, other) =>
      && t in s.txs && s.txs[t].phase == Guarding({})
      && other in s.rows && s.rows[other].team == s.txs[t].call.team
      && s.rows[other].user != s.txs[t].call.user && s.rows[other].role == Admin
    case Commit(t) => t in s.txs && s.txs[t].phase.Writing? && s.txs[t].target.Some?
    case Abort(t) => t in s.txs
    case UpsertMember(r, role) => r in s.rows && forall t :: t in s.txs ==> r !in s.txs[t].locks
    case InsertMember(team, user, role) => team in s.teams && !HasRow(s, team, user)
    case CreateTeam(team, creator) => team !in s.teams
    case DeleteTeam(team) =>
      team in s.teams && forall t, r :: t in s.txs && r in TeamRows(s, team) ==> r !in s.txs[t].locks
  }

  function WithTx(s: State, t: TxId, tx: Tx): State {
    s.(txs := s.txs[t := tx])
  }

  function WithPhase(s: State, t: TxId, phase: Phase): State
    requires t in s.txs
  {
    WithTx(s, t, s.txs[t].(phase := phase))
  }

  function Written(s: State, call: Call, r: RowId): map<RowId, Membership> {
    match call
    case SetTeamMemberRole(_, _, _, role) => if r in s.rows then s.rows[r := s.rows[r].(role := role)] else s.rows
    case RemoveTeamMember(_, _, _) => s.rows - {r}
  }

  function Inserted(s: State, m: Membership): State {
    s.(rows := s.rows[s.nextRow := m], nextRow := s.nextRow + 1)
  }

  ghost function Next(s: State, step: Step): State
    requires Enabled(s, step)
  {
    match step
    case Begin(t, call) => WithTx(s, t, Tx(call, Authorizing, {}, None))
    case AuthorizeSystemAdmin(t) => WithPhase(s, t, LockingTarget)
    case AuthorizeTeamAdmin(t, r) =>
      WithTx(s, t, s.txs[t].(phase := LockingTarget, locks := s.txs[t].locks + {r}))
    case LockTarget(t, r) =>
      WithTx(s, t, s.txs[t].(phase := Deciding, locks := s.txs[t].locks + {r}, target := Some(r)))
    case StartGuard(t) => WithPhase(s, t, Guarding(TeamRows(s, s.txs[t].call.team)))
    case SkipGuard(t) => WithPhase(s, t, Writing(false))
    case GuardLocks(t, r) =>
      WithTx(s, t, s.txs[t].(phase := Guarding(s.txs[t].phase.pending - {r}), locks := s.txs[t].locks + {r}))
    case GuardFindsDeleted(t, r) => WithPhase(s, t, Guarding(s.txs[t].phase.pending - {r}))
    case GuardPasses(t, _) => WithPhase(s, t, Writing(true))
    case Commit(t) =>
      s.(rows := Written(s, s.txs[t].call, s.txs[t].target.value), txs := s.txs - {t})
    case Abort(t) => s.(txs := s.txs - {t})
    case UpsertMember(r, role) => s.(rows := s.rows[r := s.rows[r].(role := role)])
    case InsertMember(team, user, role) => Inserted(s, Membership(team, user, role))
    case CreateTeam(team, creator) =>
      Inserted(s.(teams := s.teams + {team}), Membership(team, creator, Admin))
    case DeleteTeam(team) => s.(teams := s.teams - {team}, rows := s.rows - TeamRows(s, team))
  }

  // ---------------------------------------------------------------- the property

  ghost predicate IsAdminOf(s: State, team: string, r: RowId) {
    r in s.rows && s.rows[r].team == team && s.rows[r].role == Admin
  }

  /** What every committed state must satisfy. */
  ghost predicate EveryTeamHasAdmin(s: State) {
    forall team :: team in s.teams ==> exists r: RowId :: IsAdminOf(s, team, r)
  }

  // ---------------------------------------------------------------- the invariant

  predicate TargetLocked(tx: Tx) {
    tx.phase.Deciding? || tx.phase.Guarding? || tx.phase.Writing?
  }

  /** The guard's statement has taken its snapshot. */
  predicate InGuard(tx: Tx) {
    tx.phase.Guarding? || tx.phase == Writing(true)
  }

  function Pending(tx: Tx): set<RowId> {
    if tx.phase.Guarding? then tx.phase.pending else {}
  }

  predicate SameMember(a: Membership, b: Membership) {
    a.team == b.team && a.user == b.user
  }

  ghost predicate TablesOk(s: State) {
    && (forall r :: r in s.rows ==> r < s.nextRow && s.rows[r].team in s.teams)
    && (forall r, q :: r in s.rows && q in s.rows && SameMember(s.rows[r], s.rows[q]) ==> r == q)
  }

  ghost predicate LocksOk(s: State) {
    && (forall t, r :: t in s.txs && r in s.txs[t].locks ==> r in s.rows)
    && (forall t, u, r :: t in s.txs && u in s.txs && r in s.txs[t].locks && r in s.txs[u].locks ==> t == u)
  }

  /** From `lockTeamMember` on, the target row is locked, exists and is the one named. */
  ghost predicate TargetOk(s: State, t: TxId)
    requires t in s.txs
  {
    var tx := s.txs[t];
    TargetLocked(tx) ==>
      && tx.target.Some? && tx.target.value in tx.locks && tx.target.value in s.rows
      && s.rows[tx.target.value].team == tx.call.team
      && s.rows[tx.target.value].user == tx.call.user
      && (tx.phase == Writing(false) ==> !NeedsGuard(tx.call, s.rows[tx.target.value].role))
      && (InGuard(tx) ==> Demotes(tx.call))
  }

  ghost predicate TargetsOk(s: State) {
    forall t :: t in s.txs ==> TargetOk(s, t)
  }

  /** Of two guards on one team, one still waits for the row the other changes. */
  predicate Waits(a: Tx, b: Tx) {
    b.target.Some? && b.target.value in Pending(a)
  }

  predicate Exclude(a: Tx, b: Tx) {
    a.call.team == b.call.team && InGuard(a) && InGuard(b) ==> Waits(a, b) || Waits(b, a)
  }

  ghost predicate GuardsExclude(s: State) {
    forall t, u :: t in s.txs && u in s.txs && t != u ==> Exclude(s.txs[t], s.txs[u])
  }

  ghost predicate OtherAdmin(s: State, t: TxId, r: RowId)
    requires t in s.txs
  {
    IsAdminOf(s, s.txs[t].call.team, r) && Some(r) != s.txs[t].target
  }

  /** After the guard passed, another admin of the team is committed. */
  ghost predicate GuardsHold(s: State) {
    forall t :: t in s.txs && s.txs[t].phase == Writing(true) ==> exists r: RowId :: OtherAdmin(s, t, r)
  }

  ghost predicate Inv(s: State) {
    TablesOk(s) && LocksOk(s) && TargetsOk(s) && GuardsExclude(s) && GuardsHold(s) && EveryTeamHasAdmin(s)
  }

  // ---------------------------------------------------------------- every step keeps it

  lemma MoveKeepsTargets(s: State, t: TxId, tx: Tx)
    requires TargetsOk(s) && TargetOk(WithTx(s, t, tx), t)
    ensures TargetsOk(WithTx(s, t, tx))
  {
    forall u | u in WithTx(s, t, tx).txs
      ensures TargetOk(WithTx(s, t, tx), u)
    {
      assert u != t ==> TargetOk(s, u);
    }
  }

  lemma MoveKeepsGuards(s: State, t: TxId, tx: Tx)
    requires GuardsHold(s)
    requires tx.phase == Writing(true) ==> exists r: RowId :: OtherAdmin(WithTx(s, t, tx), t, r)
    ensures GuardsHold(WithTx(s, t, tx))
  {
    forall u | u in WithTx(s, t, tx).txs && WithTx(s, t, tx).txs[u].phase == Writing(true)
      ensures exists r: RowId :: OtherAdmin(WithTx(s, t, tx), u, r)
    {
      if u != t {
        var r: RowId :| OtherAdmin(s, u, r);
        assert OtherAdmin(WithTx(s, t, tx), u, r);
      }
    }
  }

  lemma MoveKeepsLocks(s: State, t: TxId, tx: Tx)
    requires LocksOk(s)
    requires forall r :: r in tx.locks ==> r in s.rows && Free(s, t, r)
    ensures LocksOk(WithTx(s, t, tx))
  {
  }

  lemma MoveKeepsExclude(s: State, t: TxId, tx: Tx)
    requires GuardsExclude(s)
    requires forall u :: u in s.txs && u != t ==> Exclude(tx, s.txs[u])
    ensures GuardsExclude(WithTx(s, t, tx))
  {
  }

  lemma SameRowsSameAdmins(s: State, s': State)
    requires EveryTeamHasAdmin(s) && s'.rows == s.rows && s'.teams == s.teams
    ensures EveryTeamHasAdmin(s')
  {
    assert forall team, r :: IsAdminOf(s, team, r) ==> IsAdminOf(s', team, r);
  }

  /** A step that only moves one transaction forward. */
  lemma MoveKeepsInv(s: State, t: TxId, tx: Tx)
    requires Inv(s)
    requires t in s.txs ==> tx.call == s.txs[t].call
    requires forall r :: r in tx.locks ==> r in s.rows && Free(s, t, r)
    requires TargetOk(WithTx(s, t, tx), t)
    requires forall u :: u in s.txs && u != t ==> Exclude(tx, s.txs[u])
    requires tx.phase == Writing(true) ==> exists r: RowId :: OtherAdmin(WithTx(s, t, tx), t, r)
    ensures Inv(WithTx(s, t, tx))
  {
    var s' := WithTx(s, t, tx);
    MoveKeepsTargets(s, t, tx);
    MoveKeepsGuards(s, t, tx);
    MoveKeepsLocks(s, t, tx);
    MoveKeepsExclude(s, t, tx);
    SameRowsSameAdmins(s, s');
  }

  /** The snapshot a guard takes contains the target of every guard already under way. */
  lemma StartGuardExcludes(s: State, t: TxId, u: TxId)
    requires Inv(s) && Enabled(s, StartGuard(t))
    requires u in s.txs && u != t
    ensures Exclude(s.txs[t].(phase := Guarding(TeamRows(s, s.txs[t].call.team))), s.txs[u])
  {
    assert TargetOk(s, u);
  }

  /** A guard can neither lock nor skip the row another guard on the team will change. */
  lemma GuardProgressExcludes(s: State, t: TxId, r: RowId, u: TxId)
    requires Inv(s) && (Enabled(s, GuardLocks(t, r)) || Enabled(s, GuardFindsDeleted(t, r)))
    requires u in s.txs && u != t
    ensures Exclude(s.txs[t].(phase := Guarding(s.txs[t].phase.pending - {r})), s.txs[u])
  {
    assert TargetOk(s, u);
    assert Exclude(s.txs[t], s.txs[u]);
    assert r in s.rows ==> r !in s.txs[u].locks;
  }

  predicate MovesOne(step: Step) {
    || step.Begin? || step.AuthorizeSystemAdmin? || step.AuthorizeTeamAdmin? || step.LockTarget?
    || step.StartGuard? || step.SkipGuard? || step.GuardLocks? || step.GuardFindsDeleted? || step.GuardPasses?
  }

  lemma MovesKeepInv(s: State, step: Step)
    requires Inv(s) && Enabled(s, step) && MovesOne(step)
    ensures Inv(Next(s, step))
  {
    var t := step.tx;
    var tx := Next(s, step).txs[t];
    assert Next(s, step) == WithTx(s, t, tx);
    if !step.Begin? {
      var was := s.txs[t];
      assert TargetOk(s, t);
      forall r | r in was.locks
        ensures r in s.rows && Free(s, t, r)
      {
      }
      forall u | u in s.txs && u != t
        ensures Exclude(tx, s.txs[u])
      {
        assert Exclude(was, s.txs[u]);
        if step.StartGuard? {
          StartGuardExcludes(s, t, u);
        } else if step.GuardLocks? || step.GuardFindsDeleted? {
          GuardProgressExcludes(s, t, step.row, u);
        }
      }
      if step.GuardPasses? {
        assert OtherAdmin(WithTx(s, t, tx), t, step.other);
      }
    }
    MoveKeepsInv(s, t, tx);
  }

  /** Two guards on one team cannot both have passed. */
  lemma OneGuardPasses(s: State, t: TxId, u: TxId)
    requires Inv(s) && t in s.txs && u in s.txs && s.txs[t].call.team == s.txs[u].call.team
    requires s.txs[t].phase == Writing(true) && s.txs[u].phase == Writing(true)
    ensures t == u
  {
    assert forall v :: v in s.txs && v != t ==> Exclude(s.txs[t], s.txs[v]);
  }

  /** The commit leaves every other admin of the team in place. */
  lemma CommitKeepsAdmins(s: State, t: TxId, team: string, r: RowId)
    requires Inv(s) && Enabled(s, Commit(t)) && IsAdminOf(s, team, r)
    requires Some(r) != s.txs[t].target || s.txs[t].phase == Writing(false)
    ensures IsAdminOf(Next(s, Commit(t)), team, r)
  {
    assert TargetOk(s, t);
  }

  lemma CommitKeepsTeams(s: State, t: TxId)
    requires Inv(s) && Enabled(s, Commit(t))
    ensures EveryTeamHasAdmin(Next(s, Commit(t)))
  {
    var s' := Next(s, Commit(t));
    assert TargetOk(s, t);
    forall team | team in s'.teams
      ensures exists r: RowId :: IsAdminOf(s', team, r)
    {
      var r: RowId :| IsAdminOf(s, team, r);
      if Some(r) == s.txs[t].target && s.txs[t].phase == Writing(true) {
        var q: RowId :| OtherAdmin(s, t, q);
        CommitKeepsAdmins(s, t, team, q);
      } else {
        CommitKeepsAdmins(s, t, team, r);
      }
    }
  }

  lemma CommitKeepsGuards(s: State, t: TxId)
    requires Inv(s) && Enabled(s, Commit(t))
    ensures GuardsHold(Next(s, Commit(t)))
  {
    var s' := Next(s, Commit(t));
    assert TargetOk(s, t);
    forall u | u in s'.txs && s'.txs[u].phase == Writing(true)
      ensures exists q: RowId :: OtherAdmin(s', u, q)
    {
      var q: RowId :| OtherAdmin(s, u, q);
      if Some(q) == s.txs[t].target && s.txs[t].phase == Writing(true) {
        assert s.txs[t].call.team == s.txs[u].call.team;
        OneGuardPasses(s, t, u);
      } else {
        CommitKeepsAdmins(s, t, s.txs[u].call.team, q);
        assert OtherAdmin(s', u, q);
      }
    }
  }

  /** No transaction starts or moves, and no locked row changes. */
  ghost predicate Kept(s: State, s': State) {
    && (forall u :: u in s'.txs ==> u in s.txs && s'.txs[u] == s.txs[u])
    && (forall u, r :: u in s'.txs && r in s'.txs[u].locks ==> r in s.rows && r in s'.rows && s'.rows[r] == s.rows[r])
  }

  /** What is left to check for a step that starts no transaction and touches no locked row. */
  lemma RestKeepsInv(s: State, s': State)
    requires Inv(s) && TablesOk(s') && EveryTeamHasAdmin(s') && GuardsHold(s')
    requires Kept(s, s')
    ensures Inv(s')
  {
    forall u | u in s'.txs
      ensures TargetOk(s', u)
    {
      assert TargetOk(s, u);
    }
    forall t, u | t in s'.txs && u in s'.txs && t != u
      ensures Exclude(s'.txs[t], s'.txs[u])
    {
      assert Exclude(s.txs[t], s.txs[u]);
    }
  }

  lemma CommitKeepsTables(s: State, t: TxId)
    requires Inv(s) && Enabled(s, Commit(t))
    ensures TablesOk(Next(s, Commit(t)))
  {
    var s' := Next(s, Commit(t));
    assert forall r :: r in s'.rows ==> r in s.rows && SameMember(s'.rows[r], s.rows[r]);
    forall r, q | r in s'.rows && q in s'.rows && SameMember(s'.rows[r], s'.rows[q])
      ensures r == q
    {
      assert SameMember(s.rows[r], s.rows[q]);
    }
  }

  /** The commit writes the target row, which no other transaction has locked. */
  lemma CommitTouchesTarget(s: State, t: TxId, u: TxId, r: RowId)
    requires Inv(s) && Enabled(s, Commit(t))
    requires u in s.txs && u != t && r in s.txs[u].locks
    ensures r in Next(s, Commit(t)).rows && Next(s, Commit(t)).rows[r] == s.rows[r]
  {
    assert TargetOk(s, t);
    assert r !in s.txs[t].locks;
  }

  lemma CommitKeepsInv(s: State, t: TxId)
    requires Inv(s) && Enabled(s, Commit(t))
    ensures Inv(Next(s, Commit(t)))
  {
    var s' := Next(s, Commit(t));
    assert s'.txs == s.txs - {t};
    assert Kept(s, s') by {
      forall u, r | u in s'.txs && r in s.txs[u].locks
        ensures r in s'.rows && s'.rows[r] == s.rows[r]
      {
        CommitTouchesTarget(s, t, u, r);
      }
    }
    CommitKeepsTeams(s, t);
    CommitKeepsGuards(s, t);
    CommitKeepsTables(s, t);
    RestKeepsInv(s, s');
  }

  /** A step that keeps every admin row of every remaining team and every locked row as it
      is, and starts no transaction. */
  lemma TablesStepKeepsInv(s: State, s': State)
    requires Inv(s) && TablesOk(s')
    requires Kept(s, s')
    requires forall team, r: RowId :: IsAdminOf(s, team, r) && team in s'.teams ==> IsAdminOf(s', team, r)
    requires forall team :: team in s'.teams ==> team in s.teams || exists r: RowId :: IsAdminOf(s', team, r)
    ensures Inv(s')
  {
    forall team | team in s'.teams
      ensures exists r: RowId :: IsAdminOf(s', team, r)
    {
      if team in s.teams {
        var r: RowId :| IsAdminOf(s, team, r);
        assert IsAdminOf(s', team, r);
      }
    }
    forall u | u in s'.txs && s'.txs[u].phase == Writing(true)
      ensures exists q: RowId :: OtherAdmin(s', u, q)
    {
      assert TargetOk(s, u);
      var q: RowId :| OtherAdmin(s, u, q);
      assert s'.rows[s.txs[u].target.value].team in s'.teams;
      assert OtherAdmin(s', u, q);
    }
    RestKeepsInv(s, s');
  }

  lemma AbortKeepsInv(s: State, t: TxId)
    requires Inv(s) && Enabled(s, Abort(t))
    ensures Inv(Next(s, Abort(t)))
  {
    TablesStepKeepsInv(s, Next(s, Abort(t)));
  }

  function WithRole(s: State, r: RowId, role: Role): State
    requires r in s.rows
  {
    s.(rows := s.rows[r := s.rows[r].(role := role)])
  }

  lemma UpsertKeepsTables(s: State, r: RowId, role: Role)
    requires TablesOk(s) && r in s.rows
    ensures TablesOk(WithRole(s, r, role))
  {
    var s' := WithRole(s, r, role);
    assert forall q :: q in s'.rows ==> q in s.rows && SameMember(s'.rows[q], s.rows[q]);
    forall q, p | q in s'.rows && p in s'.rows && SameMember(s'.rows[q], s'.rows[p])
      ensures q == p
    {
      assert SameMember(s.rows[q], s.rows[p]);
    }
  }

  /** `AddTeamMember`'s upsert has no guard. It does no harm if it demotes nobody, or leaves
      another admin, and one besides for each transaction on the team that is past its guard. */
  ghost predicate Harmless(s: State, r: RowId, role: Role)
    requires r in s.rows
  {
    || role == Admin
    || s.rows[r].role == Member
    || (&& (exists q: RowId :: q != r && IsAdminOf(s, s.rows[r].team, q))
        && (forall t :: t in s.txs && PastGuard(s.txs[t], s.rows[r].team) ==>
              exists q: RowId :: q != r && OtherAdmin(s, t, q)))
  }

  predicate PastGuard(tx: Tx, team: string) {
    tx.phase == Writing(true) && tx.call.team == team
  }

  /** The upsert changes no admin row but its own. */
  lemma OtherAdminsStay(s: State, r: RowId, role: Role, team: string, q: RowId)
    requires r in s.rows && IsAdminOf(s, team, q)
    requires q != r || role == Admin || s.rows[r].role == Member || s.rows[r].team != team
    ensures IsAdminOf(WithRole(s, r, role), team, q)
  {
  }

  lemma UpsertKeepsTeams(s: State, r: RowId, role: Role)
    requires EveryTeamHasAdmin(s) && r in s.rows && Harmless(s, r, role)
    ensures EveryTeamHasAdmin(WithRole(s, r, role))
  {
    var s' := WithRole(s, r, role);
    forall team | team in s'.teams
      ensures exists q: RowId :: IsAdminOf(s', team, q)
    {
      var q: RowId :| IsAdminOf(s, team, q);
      if q == r && role != Admin {
        var p: RowId :| p != r && IsAdminOf(s, team, p);
        OtherAdminsStay(s, r, role, team, p);
      } else {
        OtherAdminsStay(s, r, role, team, q);
      }
    }
  }

  lemma UpsertKeepsGuards(s: State, r: RowId, role: Role)
    requires GuardsHold(s) && r in s.rows && Harmless(s, r, role)
    ensures GuardsHold(WithRole(s, r, role))
  {
    var s' := WithRole(s, r, role);
    forall t | t in s'.txs && s'.txs[t].phase == Writing(true)
      ensures exists q: RowId :: OtherAdmin(s', t, q)
    {
      var team := s.txs[t].call.team;
      var q: RowId :| OtherAdmin(s, t, q);
      if q == r && role != Admin {
        assert PastGuard(s.txs[t], s.rows[r].team);
        var p: RowId :| p != r && OtherAdmin(s, t, p);
        OtherAdminsStay(s, r, role, team, p);
        assert OtherAdmin(s', t, p);
      } else {
        OtherAdminsStay(s, r, role, team, q);
        assert OtherAdmin(s', t, q);
      }
    }
  }

  lemma UpsertKeepsInv(s: State, r: RowId, role: Role)
    requires Inv(s) && Enabled(s, UpsertMember(r, role)) && Harmless(s, r, role)
    ensures Inv(WithRole(s, r, role))
  {
    var s' := WithRole(s, r, role);
    assert Kept(s, s');
    UpsertKeepsTables(s, r, role);
    UpsertKeepsTeams(s, r, role);
    UpsertKeepsGuards(s, r, role);
    RestKeepsInv(s, s');
  }

  lemma NewRowKeepsInv(s: State, m: Membership)
    requires Inv(s) && !HasRow(s, m.team, m.user)
    requires m.team in s.teams || m.role == Admin
    ensures Inv(Inserted(s.(teams := s.teams + {m.team}), m))
  {
    var s' := Inserted(s.(teams := s.teams + {m.team}), m);
    if m.role == Admin {
      assert IsAdminOf(s', m.team, s.nextRow);
    }
    forall q, p | q in s'.rows && p in s'.rows && SameMember(s'.rows[q], s'.rows[p])
      ensures q == p
    {
      if q in s.rows && p in s.rows {
        assert SameMember(s.rows[q], s.rows[p]);
      }
    }
    TablesStepKeepsInv(s, s');
  }

  lemma MemberStepKeepsInv(s: State, step: Step)
    requires Inv(s) && Enabled(s, step) && (step.UpsertMember? || step.InsertMember? || step.CreateTeam?)
    requires HarmlessStep(s, step)
    ensures Inv(Next(s, step))
  {
    if step.UpsertMember? {
      UpsertKeepsInv(s, step.row, step.role);
    } else if step.InsertMember? {
      assert s.(teams := s.teams + {step.team}) == s;
      NewRowKeepsInv(s, Membership(step.team, step.user, step.role));
    } else {
      assert !HasRow(s, step.team, step.creator);
      NewRowKeepsInv(s, Membership(step.team, step.creator, Admin));
    }
  }

  lemma DeleteTeamKeepsInv(s: State, team: string)
    requires Inv(s) && Enabled(s, DeleteTeam(team))
    ensures Inv(Next(s, DeleteTeam(team)))
  {
    var s' := Next(s, DeleteTeam(team));
    forall u, r | u in s'.txs && r in s.txs[u].locks
      ensures r in s'.rows && s'.rows[r] == s.rows[r]
    {
      assert r !in TeamRows(s, team);
    }
    TablesStepKeepsInv(s, s');
  }

  // ---------------------------------------------------------------- runs

  ghost predicate HarmlessStep(s: State, step: Step)
    requires Enabled(s, step)
  {
    step.UpsertMember? ==> Harmless(s, step.row, step.role)
  }

  /** `steps` can be taken from `s`, in this order. */
  ghost predicate Run(s: State, steps: seq<Step>)
    decreases |steps|
  {
    steps == [] || (Enabled(s, steps[0]) && Run(Next(s, steps[0]), steps[1..]))
  }

  ghost predicate HarmlessRun(s: State, steps: seq<Step>)
    requires Run(s, steps)
    decreases |steps|
  {
    steps == [] || (HarmlessStep(s, steps[0]) && HarmlessRun(Next(s, steps[0]), steps[1..]))
  }

  ghost function After(s: State, steps: seq<Step>): State
    requires Run(s, steps)
    decreases |steps|
  {
    if steps == [] then s else After(Next(s, steps[0]), steps[1..])
  }

  lemma StepKeepsInv(s: State, step: Step)
    requires Inv(s) && Enabled(s, step) && HarmlessStep(s, step)
    ensures Inv(Next(s, step))
  {
    if MovesOne(step) {
      MovesKeepInv(s, step);
    } else if step.Commit? {
      CommitKeepsInv(s, step.tx);
    } else if step.Abort? {
      AbortKeepsInv(s, step.tx);
    } else if step.DeleteTeam? {
      DeleteTeamKeepsInv(s, step.team);
    } else {
      MemberStepKeepsInv(s, step);
    }
  }

  /** No transaction is running, row identities are unused and every team has an admin. */
  ghost predicate Quiet(s: State) {
    TablesOk(s) && s.txs == map[] && EveryTeamHasAdmin(s)
  }

  /** In every run, with any number of transactions interleaved statement by statement, each
      committed state has an admin in every team, if no upsert on the way does harm. */
  lemma {:induction false} EveryRunKeepsTeamAdmins(s: State, steps: seq<Step>)
    requires Inv(s) && Run(s, steps) && HarmlessRun(s, steps)
    ensures Inv(After(s, steps)) && EveryTeamHasAdmin(After(s, steps))
    decreases |steps|
  {
    if steps != [] {
      StepKeepsInv(s, steps[0]);
      EveryRunKeepsTeamAdmins(Next(s, steps[0]), steps[1..]);
    }
  }

  // ---------------------------------------------------------------- harm is always possible

  /** No admin is turned into a plain member by re-adding it. */
  predicate Undemoting(s: State, step: Step) {
    step.UpsertMember? && step.row in s.rows ==> step.role == Admin || s.rows[step.row].role == Member
  }

  ghost predicate UndemotingRun(s: State, steps: seq<Step>)
    requires Run(s, steps)
    decreases |steps|
  {
    steps == [] || (Undemoting(s, steps[0]) && UndemotingRun(Next(s, steps[0]), steps[1..]))
  }

  lemma {:induction false} UndemotingIsHarmless(s: State, steps: seq<Step>)
    requires Run(s, steps) && UndemotingRun(s, steps)
    ensures HarmlessRun(s, steps)
    decreases |steps|
  {
    if steps != [] {
      UndemotingIsHarmless(Next(s, steps[0]), steps[1..]);
    }
  }

  /** Whatever the transactions under way and later ones do, no upsert demoting anybody, every
      team keeps an admin. */
  ghost predicate Safe(s: State) {
    forall rest: seq<Step> :: Run(s, rest) && UndemotingRun(s, rest) ==> EveryTeamHasAdmin(After(s, rest))
  }

  lemma InvIsSafe(s: State)
    requires Inv(s)
    ensures Safe(s)
  {
    forall rest: seq<Step> | Run(s, rest) && UndemotingRun(s, rest)
      ensures EveryTeamHasAdmin(After(s, rest))
    {
      UndemotingIsHarmless(s, rest);
      EveryRunKeepsTeamAdmins(s, rest);
    }
  }

  /** The commit of a guarded change leaves as admins only other admins. */
  lemma AdminAfterCommit(s: State, t: TxId, q: RowId)
    requires TargetsOk(s) && t in s.txs && s.txs[t].phase == Writing(true)
    requires Enabled(s, Commit(t)) && IsAdminOf(Next(s, Commit(t)), s.txs[t].call.team, q)
    ensures OtherAdmin(s, t, q)
  {
    assert TargetOk(s, t);
  }

  lemma CommitIsUnsafe(s: State, t: TxId)
    requires TargetsOk(s) && t in s.txs && s.txs[t].phase == Writing(true) && s.txs[t].call.team in s.teams
    requires forall q: RowId :: !OtherAdmin(s, t, q)
    ensures !Safe(s)
  {
    assert TargetOk(s, t);
    var s', team := Next(s, Commit(t)), s.txs[t].call.team;
    forall q: RowId
      ensures !IsAdminOf(s', team, q)
    {
      if IsAdminOf(s', team, q) {
        AdminAfterCommit(s, t, q);
      }
    }
    assert Run(s', []) && UndemotingRun(s', []);
    var rest := RunCons(s, Commit(t), s', []);
    assert rest[1..] == [];
    assert UndemotingRun(s, rest);
    assert team in After(s, rest).teams;
  }

  lemma NoAdminIsUnsafe(s: State, team: string)
    requires team in s.teams && forall q: RowId :: !IsAdminOf(s, team, q)
    ensures !Safe(s)
  {
    assert Run(s, []) && UndemotingRun(s, []) && After(s, []) == s;
  }

  /** Demoting an admin takes one admin away and adds none. */
  lemma AdminsAfterDemotion(s: State, r: RowId, team: string, q: RowId)
    requires r in s.rows && IsAdminOf(WithRole(s, r, Member), team, q)
    ensures q != r && IsAdminOf(s, team, q)
  {
  }

  /** An upsert that does harm: at once, or at the commit of a guarded change, a team is left
      without an admin. */
  lemma HarmIsUnsafe(s: State, r: RowId, role: Role)
    requires Inv(s) && Enabled(s, UpsertMember(r, role)) && !Harmless(s, r, role)
    ensures !Safe(WithRole(s, r, role))
  {
    var s', team := WithRole(s, r, role), s.rows[r].team;
    if exists q: RowId :: q != r && IsAdminOf(s, team, q) {
      var t :| t in s.txs && PastGuard(s.txs[t], team) && !exists q: RowId :: q != r && OtherAdmin(s, t, q);
      forall q: RowId
        ensures !OtherAdmin(s', t, q)
      {
        if OtherAdmin(s', t, q) {
          AdminsAfterDemotion(s, r, team, q);
          assert OtherAdmin(s, t, q);
        }
      }
      UpsertKeepsTargets(s, r, role);
      CommitIsUnsafe(s', t);
    } else {
      forall q: RowId
        ensures !IsAdminOf(s', team, q)
      {
        if IsAdminOf(s', team, q) {
          AdminsAfterDemotion(s, r, team, q);
        }
      }
      NoAdminIsUnsafe(s', team);
    }
  }

  lemma UpsertKeepsTargets(s: State, r: RowId, role: Role)
    requires TargetsOk(s) && LocksOk(s) && Enabled(s, UpsertMember(r, role))
    ensures TargetsOk(WithRole(s, r, role))
  {
    forall t | t in s.txs
      ensures TargetOk(WithRole(s, r, role), t)
    {
      assert TargetOk(s, t);
    }
  }

  ghost predicate StaysSafe(s: State, steps: seq<Step>)
    requires Run(s, steps)
    decreases |steps|
  {
    Safe(s) && (steps == [] || StaysSafe(Next(s, steps[0]), steps[1..]))
  }

  /** At every point of a run every team has an admin and keeps one, whatever the transactions
      under way do, exactly when each upsert of the run is harmless in the state it meets. */
  lemma {:induction false} RunsStaySafeExactly(s: State, steps: seq<Step>)
    requires Inv(s) && Run(s, steps)
    ensures StaysSafe(s, steps) <==> HarmlessRun(s, steps)
    decreases |steps|
  {
    InvIsSafe(s);
    if steps != [] {
      var s' := Next(s, steps[0]);
      if HarmlessStep(s, steps[0]) {
        StepKeepsInv(s, steps[0]);
        RunsStaySafeExactly(s', steps[1..]);
      } else {
        HarmIsUnsafe(s, steps[0].row, steps[0].role);
        assert !StaysSafe(s', steps[1..]);
      }
    }
  }

  lemma QuietIsInv(s: State)
    requires Quiet(s)
    ensures Inv(s)
  {
  }

  lemma RunCons(s: State, step: Step, s': State, rest: seq<Step>) returns (steps: seq<Step>)
    requires Enabled(s, step) && Next(s, step) == s' && Run(s', rest)
    ensures Run(s, steps) && After(s, steps) == After(s', rest) && steps == [step] + rest
  {
    steps := [step] + rest;
    assert steps[1..] == rest;
  }

  const REMOVAL := RemoveTeamMember("root", "t", "a")
  const ROW_A := Membership("t", "a", Admin)
  const ROW_B := Membership("t", "b", Admin)
  const BEFORE := State({"t"}, map[0 := ROW_A], 1, map[])
  const GUARDING := State({"t"}, map[0 := ROW_A], 1, map[7 := Tx(REMOVAL, Guarding({0}), {0}, Some(0))])
  const INSERTED := State({"t"}, map[0 := ROW_A, 1 := ROW_B], 2, map[7 := Tx(REMOVAL, Guarding({}), {0}, Some(0))])
  const AFTERWARDS := State({"t"}, map[1 := ROW_B.(role := Member)], 2, map[])

  lemma RemovalReachesGuard(rest: seq<Step>) returns (steps: seq<Step>)
    requires Run(GUARDING, rest)
    ensures Run(BEFORE, steps) && After(BEFORE, steps) == After(GUARDING, rest)
  {
    var s1 := BEFORE.(txs := map[7 := Tx(REMOVAL, Authorizing, {}, None)]);
    var s2 := BEFORE.(txs := map[7 := Tx(REMOVAL, LockingTarget, {}, None)]);
    var s3 := BEFORE.(txs := map[7 := Tx(REMOVAL, Deciding, {0}, Some(0))]);
    assert TeamRows(s3, "t") == {0};
    steps := RunCons(s3, StartGuard(7), GUARDING, rest);
    assert Next(s2, LockTarget(7, 0)).txs[7] == s3.txs[7];
    steps := RunCons(s2, LockTarget(7, 0), s3, steps);
    steps := RunCons(s1, AuthorizeSystemAdmin(7), s2, steps);
    steps := RunCons(BEFORE, Begin(7, REMOVAL), s1, steps);
  }

  lemma GuardMissesNewRow(rest: seq<Step>) returns (steps: seq<Step>)
    requires Run(INSERTED, rest)
    ensures Run(GUARDING, steps) && After(GUARDING, steps) == After(INSERTED, rest)
  {
    var s5 := GUARDING.(txs := map[7 := Tx(REMOVAL, Guarding({}), {0}, Some(0))]);
    steps := RunCons(s5, InsertMember("t", "b", Admin), INSERTED, rest);
    var pending: set<RowId> := {0};
    assert pending - {0} == {} && pending + {0} == {0};
    assert Next(GUARDING, GuardLocks(7, 0)).txs[7] == s5.txs[7];
    steps := RunCons(GUARDING, GuardLocks(7, 0), s5, steps);
  }

  lemma UpsertThenCommit() returns (steps: seq<Step>)
    ensures Run(INSERTED, steps) && After(INSERTED, steps) == AFTERWARDS
  {
    var passed := INSERTED.(txs := map[7 := Tx(REMOVAL, Writing(true), {0}, Some(0))]);
    var demoted := passed.(rows := map[0 := ROW_A, 1 := ROW_B.(role := Member)]);
    steps := RunCons(demoted, Commit(7), AFTERWARDS, []);
    steps := RunCons(passed, UpsertMember(1, Member), demoted, steps);
    steps := RunCons(INSERTED, GuardPasses(7, 1), passed, steps);
  }

  /** Why the condition is there. `a` is removed while `b`, inserted after the guard took its
      snapshot, counts as the other admin; re-adding `b` as a plain member then succeeds,
      although two admins exist at that moment, and the commit leaves the team without one. */
  lemma UpsertCanUndoTheGuard()
    ensures exists s, steps :: Quiet(s) && Run(s, steps) && !EveryTeamHasAdmin(After(s, steps))
  {
    assert IsAdminOf(BEFORE, "t", 0);
    assert Quiet(BEFORE);
    var steps := UpsertThenCommit();
    steps := GuardMissesNewRow(steps);
    steps := RemovalReachesGuard(steps);
    assert "t" in AFTERWARDS.teams && forall r: RowId :: !IsAdminOf(AFTERWARDS, "t", r);
  }
}
