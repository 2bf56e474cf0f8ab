/** Users, teams and memberships: the transactions of api/internal/identity/store.go, each one
    step. Texts are given trimmed and user names in lower case; new ids are parameters. */
module IdentityStore {
  import opened Wrappers

  /** A row of `users`; `role` is the system role. */
  datatype User = User(username: string, displayName: string, role: string, disabled: bool)

  datatype Team = Team(name: string, createdBy: string)

  /** The three tables; `members` is keyed by team and user. */
  datatype Db = Db(users: map<string, User>, teams: map<string, Team>, members: map<(string, string), string>)

  datatype Error =
    | AlreadyBootstrapped | Forbidden | Conflict | Invalid | NotFound | LastTeamAdmin | LastSystemAdmin

  datatype UserUpdate = UserUpdate(displayName: Option<string>, role: Option<string>, disabled: Option<bool>, password: Option<string>)

  datatype Assignment = Assignment(team: string, role: string)

  // ---------------------------------------------------------------- checks

  predicate ValidRole(role: string) {
    role == "member" || role == "admin"
  }

  predicate IsSystemAdmin(db: Db, user: string) {
    user in db.users && !db.users[user].disabled && db.users[user].role == "admin"
  }

  predicate IsTeamAdmin(db: Db, team: string, user: string) {
    (team, user) in db.members && db.members[(team, user)] == "admin"
  }

  predicate MayManageTeam(db: Db, user: string, team: string) {
    user in db.users && !db.users[user].disabled && (db.users[user].role == "admin" || IsTeamAdmin(db, team, user))
  }

  /** `ensureAnotherTeamAdmin` passes. */
  predicate AnotherTeamAdmin(db: Db, team: string, except: string) {
    exists k :: k in db.members && k.0 == team && k.1 != except && db.members[k] == "admin"
  }

  /** `ensureAnotherActiveSystemAdmin` passes. */
  predicate AnotherSystemAdmin(db: Db, except: string) {
    exists u :: u in db.users && u != except && IsSystemAdmin(db, u)
  }

  predicate UsernameTaken(db: Db, username: string) {
    exists u :: u in db.users && db.users[u].username == username
  }

  predicate TeamNameTaken(db: Db, name: string, except: string) {
    exists t :: t in db.teams && t != except && db.teams[t].name == name
  }

  // ---------------------------------------------------------------- what each transaction commits

  function BootstrapAdmin(db: Db, id: string, username: string): Result<Db, Error> {
    if db.users != map[] then Err(AlreadyBootstrapped)
    else Ok(db.(users := map[id := User(username, username, "admin", false)]))
  }

  function CreateUser(db: Db, actor: string, id: string, username: string, displayName: string, role: string): Result<Db, Error> {
    if !IsSystemAdmin(db, actor) then Err(Forbidden)
    else if !ValidRole(role) then Err(Invalid)
    else if id in db.users || UsernameTaken(db, username) then Err(Conflict)
    else Ok(db.(users := db.users[id := User(username, displayName, role, false)]))
  }

  function CreateTeam(db: Db, actor: string, id: string, name: string): Result<Db, Error> {
    if !IsSystemAdmin(db, actor) then Err(Forbidden)
    else if id in db.teams || TeamNameTaken(db, name, id) then Err(Conflict)
    else Ok(db.(teams := db.teams[id := Team(name, actor)], members := db.members[(id, actor) := "admin"]))
  }

  function UpdateUser(db: Db, actor: string, id: string, update: UserUpdate): Result<Db, Error> {
    if !IsSystemAdmin(db, actor) then Err(Forbidden)
    else if id !in db.users then Err(NotFound)
    else if update.displayName == Some("") then Err(Invalid)
    else if update.role.Some? && !ValidRole(update.role.value) then Err(Invalid)
    else
      var current := db.users[id];
      var role := if update.role.Some? then update.role.value else current.role;
      var disabled := if update.disabled.Some? then update.disabled.value else current.disabled;
      var displayName := if update.displayName.Some? then update.displayName.value else current.displayName;
      if id == actor && disabled then Err(Forbidden)
      else if current.role == "admin" && (role != "admin" || disabled) && !AnotherSystemAdmin(db, id) then Err(LastSystemAdmin)
      else if update.password.Some? && |update.password.value| < 8 then Err(Invalid)
      else Ok(db.(users := db.users[id := User(current.username, displayName, role, disabled)]))
  }

  /** The teams the user administers. */
  function AdminTeams(db: Db, user: string): set<string> {
    set k | k in db.members && k.1 == user && db.members[k] == "admin" :: k.0
  }

  predicate OthersLead(db: Db, teams: set<string>, user: string) {
    forall t :: t in teams ==> AnotherTeamAdmin(db, t, user)
  }

  /** The rows left when the user's row goes, with the references to it handed to `heir`. */
  function WithoutUser(db: Db, user: string, heir: string): Db {
    Db(db.users - {user},
       map t | t in db.teams :: if db.teams[t].createdBy == user then db.teams[t].(createdBy := heir) else db.teams[t],
       map k | k in db.members && k.1 != user :: db.members[k])
  }

  function DeleteUser(db: Db, actor: string, id: string): Result<Db, Error> {
    if !IsSystemAdmin(db, actor) then Err(Forbidden)
    else if id !in db.users then Err(NotFound)
    else if id == actor then Err(Forbidden)
    else if db.users[id].role == "admin" && !AnotherSystemAdmin(db, id) then Err(LastSystemAdmin)
    else if !OthersLead(db, AdminTeams(db, id), id) then Err(LastTeamAdmin)
    else Ok(WithoutUser(db, id, actor))
  }

  function UpdateTeam(db: Db, actor: string, id: string, name: string): Result<Db, Error> {
    if !IsSystemAdmin(db, actor) then Err(Forbidden)
    else if id !in db.teams then Err(NotFound)
    else if TeamNameTaken(db, name, id) then Err(Conflict)
    else Ok(db.(teams := db.teams[id := db.teams[id].(name := name)]))
  }

  function DeleteTeam(db: Db, actor: string, id: string): Result<Db, Error> {
    if !IsSystemAdmin(db, actor) then Err(Forbidden)
    else if id !in db.teams then Err(NotFound)
    else Ok(db.(teams := db.teams - {id}, members := map k | k in db.members && k.0 != id :: db.members[k]))
  }

  /** One statement: authorised or not, then an insert that overwrites. There is no guard. */
  function AddTeamMember(db: Db, actor: string, team: string, user: string, role: string): Result<Db, Error> {
    if !MayManageTeam(db, actor, team) then Err(Forbidden)
    else if !ValidRole(role) then Err(Invalid)
    else if team !in db.teams || user !in db.users then Err(NotFound)
    else Ok(db.(members := db.members[(team, user) := role]))
  }

  function SetTeamMemberRole(db: Db, actor: string, team: string, user: string, role: string): Result<Db, Error> {
    if !ValidRole(role) then Err(Invalid)
    else if !MayManageTeam(db, actor, team) then Err(Forbidden)
    else if (team, user) !in db.members then Err(NotFound)
    else if IsTeamAdmin(db, team, user) && role != "admin" && !AnotherTeamAdmin(db, team, user) then Err(LastTeamAdmin)
    else Ok(db.(members := db.members[(team, user) := role]))
  }

  function RemoveTeamMember(db: Db, actor: string, team: string, user: string): Result<Db, Error> {
    if !MayManageTeam(db, actor, team) then Err(Forbidden)
    else if (team, user) !in db.members then Err(NotFound)
    else if IsTeamAdmin(db, team, user) && !AnotherTeamAdmin(db, team, user) then Err(LastTeamAdmin)
    else Ok(db.(members := db.members - {(team, user)}))
  }

  predicate ValidAssignments(assignments: seq<Assignment>) {
    && (forall i :: 0 <= i < |assignments| ==> assignments[i].team != "" && ValidRole(assignments[i].role))
    && forall i, j :: 0 <= i < j < |assignments| ==> assignments[i].team != assignments[j].team
  }

  /** The memberships asked for, by team. */
  function Desired(assignments: seq<Assignment>): map<string, string> {
    if assignments == [] then map[]
    else
      var last := assignments[|assignments| - 1];
      Desired(assignments[..|assignments| - 1])[last.team := last.role]
  }

  /** The teams the assignments would leave without this admin. */
  function LostTeams(db: Db, user: string, desired: map<string, string>): set<string> {
    set t | t in AdminTeams(db, user) && !(t in desired && desired[t] == "admin")
  }

  /** The user's rows of other teams than those asked for are gone. */
  function Kept(rows: map<(string, string), string>, user: string, desired: set<string>): map<(string, string), string> {
    map k | k in rows && !(k.1 == user && k.0 !in desired) :: rows[k]
  }

  /** One row for each assignment, over what is there. */
  function Upserted(rows: map<(string, string), string>, user: string, assignments: seq<Assignment>): map<(string, string), string> {
    if assignments == [] then rows
    else
      var last := assignments[|assignments| - 1];
      Upserted(rows, user, assignments[..|assignments| - 1])[(last.team, user) := last.role]
  }

  function Reassigned(db: Db, user: string, assignments: seq<Assignment>): map<(string, string), string> {
    Upserted(Kept(db.members, user, Desired(assignments).Keys), user, assignments)
  }

  function SetUserTeamMemberships(db: Db, actor: string, user: string, assignments: seq<Assignment>): Result<Db, Error> {
    var desired := Desired(assignments);
    if !ValidAssignments(assignments) then Err(Invalid)
    else if !IsSystemAdmin(db, actor) then Err(Forbidden)
    else if user !in db.users then Err(NotFound)
    else if !OthersLead(db, LostTeams(db, user, desired), user) then Err(LastTeamAdmin)
    else if !(desired.Keys <= db.teams.Keys) then Err(NotFound)
    else Ok(db.(members := Reassigned(db, user, assignments)))
  }

  // ---------------------------------------------------------------- runs

  datatype Call =
    | CallBootstrap(id: string, username: string)
    | CallCreateUser(actor: string, id: string, username: string, displayName: string, role: string)
    | CallUpdateUser(actor: string, user: string, update: UserUpdate)
    | CallDeleteUser(actor: string, user: string)
    | CallCreateTeam(actor: string, id: string, name: string)
    | CallUpdateTeam(actor: string, team: string, name: string)
    | CallDeleteTeam(actor: string, team: string)
    | CallAddTeamMember(actor: string, team: string, user: string, role: string)
    | CallSetTeamMemberRole(actor: string, team: string, user: string, role: string)
    | CallRemoveTeamMember(actor: string, team: string, user: string)
    | CallSetMemberships(actor: string, user: string, assignments: seq<Assignment>)

  function Outcome(db: Db, call: Call): Result<Db, Error> {
    match call
    case CallBootstrap(id, username) => BootstrapAdmin(db, id, username)
    case CallCreateUser(actor, id, username, displayName, role) => CreateUser(db, actor, id, username, displayName, role)
    case CallUpdateUser(actor, user, update) => UpdateUser(db, actor, user, update)
    case CallDeleteUser(actor, user) => DeleteUser(db, actor, user)
    case CallCreateTeam(actor, id, name) => CreateTeam(db, actor, id, name)
    case CallUpdateTeam(actor, team, name) => UpdateTeam(db, actor, team, name)
    case CallDeleteTeam(actor, team) => DeleteTeam(db, actor, team)
    case CallAddTeamMember(actor, team, user, role) => AddTeamMember(db, actor, team, user, role)
    case CallSetTeamMemberRole(actor, team, user, role) => SetTeamMemberRole(db, actor, team, user, role)
    case CallRemoveTeamMember(actor, team, user) => RemoveTeamMember(db, actor, team, user)
    case CallSetMemberships(actor, user, assignments) => SetUserTeamMemberships(db, actor, user, assignments)
  }

  function Next(db: Db, call: Call): Db {
    var r := Outcome(db, call);
    if r.Ok? then r.value else db
  }

  function After(db: Db, calls: seq<Call>): Db {
    if calls == [] then db else Next(After(db, calls[..|calls| - 1]), calls[|calls| - 1])
  }

  function Empty(): Db {
    Db(map[], map[], map[])
  }

  // ---------------------------------------------------------------- the properties

  /** Keys, references and checks of the tables. */
  ghost predicate Sound(db: Db) {
    && (forall k :: k in db.members ==> k.0 in db.teams && k.1 in db.users && ValidRole(db.members[k]))
    && (forall u :: u in db.users ==> ValidRole(db.users[u].role))
    && (forall u, v :: u in db.users && v in db.users && db.users[u].username == db.users[v].username ==> u == v)
    && (forall t :: t in db.teams ==> db.teams[t].createdBy in db.users)
    && (forall s, t :: s in db.teams && t in db.teams && db.teams[s].name == db.teams[t].name ==> s == t)
  }

  /** After bootstrap there is an enabled system admin. */
  ghost predicate SomeoneRules(db: Db) {
    db.users == map[] || exists u :: IsSystemAdmin(db, u)
  }

  ghost predicate TeamHasAdmin(db: Db, team: string) {
    exists u :: IsTeamAdmin(db, team, u)
  }

  ghost predicate EveryTeamHasAdmin(db: Db) {
    forall t :: t in db.teams ==> TeamHasAdmin(db, t)
  }

  ghost predicate OnlyTeamAdmin(db: Db, team: string, user: string) {
    IsTeamAdmin(db, team, user) && forall u :: IsTeamAdmin(db, team, u) ==> u == user
  }

  ghost predicate OnlySystemAdmin(db: Db, user: string) {
    IsSystemAdmin(db, user) && forall u :: IsSystemAdmin(db, u) ==> u == user
  }

  ghost predicate Keeps(before: Db, after: Db) {
    (Sound(before) ==> Sound(after)) && (SomeoneRules(before) ==> SomeoneRules(after))
  }

  ghost predicate KeepsTeamAdmins(before: Db, after: Db) {
    Sound(before) && EveryTeamHasAdmin(before) ==> EveryTeamHasAdmin(after)
  }

  // ---------------------------------------------------------------- the store

  /** A transaction either commits its outcome or leaves no trace and reports its error. */
  predicate Commits(before: Db, outcome: Result<Db, Error>, after: Db, error: Option<Error>) {
    match outcome
    case Ok(next) => error.None? && after == next
    case Err(e) => error == Some(e) && after == before
  }

  class Store {
    var users: map<string, User>
    var teams: map<string, Team>
    var members: map<(string, string), string>

    function View(): Db
      reads this
    {
      Db(users, teams, members)
    }

    constructor ()
      ensures View() == Empty()
    {
      users, teams, members := map[], map[], map[];
    }

    method BootstrapAdmin(id: string, username: string) returns (error: Option<Error>)
      modifies this`users
      ensures Commits(old(View()), Outcome(old(View()), CallBootstrap(id, username)), View(), error)
      ensures Keeps(old(View()), View()) && KeepsTeamAdmins(old(View()), View())
      ensures error.None? <==> old(users) == map[]
      ensures error.None? ==> OnlySystemAdmin(View(), id)
    {
      ghost var before := View();
      if users != map[] {
        return Some(AlreadyBootstrapped);
      }
      users := users[id := User(username, username, "admin", false)];
      Committed(before, CallBootstrap(id, username), View());
      return None;
    }

    method CreateUser(actor: string, id: string, username: string, displayName: string, role: string)
      returns (error: Option<Error>)
      modifies this`users
      ensures Commits(old(View()), Outcome(old(View()), CallCreateUser(actor, id, username, displayName, role)), View(), error)
      ensures Keeps(old(View()), View()) && KeepsTeamAdmins(old(View()), View())
      ensures error.None? ==> id !in old(users) && users - {id} == old(users)
      ensures error.None? ==> forall u :: u in users && users[u].username == username ==> u == id
    {
      ghost var before := View();
      if !IsSystemAdmin(View(), actor) {
        return Some(Forbidden);
      }
      if !ValidRole(role) {
        return Some(Invalid);
      }
      if id in users || UsernameTaken(View(), username) {
        return Some(Conflict);
      }
      users := users[id := User(username, displayName, role, false)];
      Committed(before, CallCreateUser(actor, id, username, displayName, role), View());
      return None;
    }

    method CreateTeam(actor: string, id: string, name: string) returns (error: Option<Error>)
      modifies this`teams, this`members
      ensures Commits(old(View()), Outcome(old(View()), CallCreateTeam(actor, id, name)), View(), error)
      ensures Keeps(old(View()), View()) && KeepsTeamAdmins(old(View()), View())
      ensures error.None? && Sound(old(View())) ==> OnlyTeamAdmin(View(), id, actor)
      ensures error.None? ==> teams - {id} == old(teams) && members - {(id, actor)} == old(members) - {(id, actor)}
    {
      ghost var before := View();
      if !IsSystemAdmin(View(), actor) {
        return Some(Forbidden);
      }
      if id in teams || TeamNameTaken(View(), name, id) {
        return Some(Conflict);
      }
      teams := teams[id := Team(name, actor)];
      members := members[(id, actor) := "admin"];
      Committed(before, CallCreateTeam(actor, id, name), View());
      return None;
    }

    method UpdateUser(actor: string, id: string, update: UserUpdate) returns (error: Option<Error>)
      modifies this`users
      ensures Commits(old(View()), Outcome(old(View()), CallUpdateUser(actor, id, update)), View(), error)
      ensures Keeps(old(View()), View()) && KeepsTeamAdmins(old(View()), View())
      ensures users - {id} == old(users) - {id}
      ensures error == Some(LastSystemAdmin) <==>
                && id == actor && OnlySystemAdmin(old(View()), id)
                && update.role == Some("member") && update.disabled != Some(true) && update.displayName != Some("")
    {
      ghost var before := View();
      LastSystemAdminExactly(View(), actor, id, update);
      if !IsSystemAdmin(View(), actor) {
        return Some(Forbidden);
      }
      if id !in users {
        return Some(NotFound);
      }
      var current := users[id];
      var displayName, role, disabled := current.displayName, current.role, current.disabled;
      if update.displayName.Some? {
        displayName := update.displayName.value;
        if displayName == "" {
          return Some(Invalid);
        }
      }
      if update.role.Some? {
        role := update.role.value;
        if !ValidRole(role) {
          return Some(Invalid);
        }
      }
      if update.disabled.Some? {
        disabled := update.disabled.value;
      }
      if id == actor && disabled {
        return Some(Forbidden);
      }
      if current.role == "admin" && (role != "admin" || disabled) {
        if !AnotherSystemAdmin(View(), id) {
          return Some(LastSystemAdmin);
        }
      }
      if update.password.Some? && |update.password.value| < 8 {
        return Some(Invalid);
      }
      users := users[id := User(current.username, displayName, role, disabled)];
      Committed(before, CallUpdateUser(actor, id, update), View());
      return None;
    }

    /** The guard loops: every team has another admin than `user`. */
    method OthersLeadAll(all: set<string>, user: string) returns (ok: bool)
      ensures ok == OthersLead(View(), all, user)
    {
      var todo := all;
      while todo != {}
        invariant todo <= all && OthersLead(View(), all - todo, user)
        decreases |todo|
      {
        var team :| team in todo;
        if !AnotherTeamAdmin(View(), team, user) {
          return false;
        }
        todo := todo - {team};
      }
      return true;
    }

    method DeleteUser(actor: string, id: string) returns (error: Option<Error>)
      modifies this
      ensures Commits(old(View()), Outcome(old(View()), CallDeleteUser(actor, id)), View(), error)
      ensures Keeps(old(View()), View()) && KeepsTeamAdmins(old(View()), View())
      ensures error != Some(LastSystemAdmin)
      ensures error == Some(LastTeamAdmin) <==>
                && IsSystemAdmin(old(View()), actor) && id in old(users) && id != actor
                && exists t :: OnlyTeamAdmin(old(View()), t, id)
    {
      ghost var before := View();
      LastTeamAdminExactly(View(), actor, id);
      if !IsSystemAdmin(View(), actor) {
        return Some(Forbidden);
      }
      if id !in users {
        return Some(NotFound);
      }
      if id == actor {
        return Some(Forbidden);
      }
      if users[id].role == "admin" && !AnotherSystemAdmin(View(), id) {
        return Some(LastSystemAdmin);
      }
      var led := OthersLeadAll(AdminTeams(View(), id), id);
      if !led {
        return Some(LastTeamAdmin);
      }
      teams := map t | t in teams :: if teams[t].createdBy == id then teams[t].(createdBy := actor) else teams[t];
      users := users - {id};
      members := map k | k in members && k.1 != id :: members[k];
      Committed(before, CallDeleteUser(actor, id), View());
      return None;
    }

    method UpdateTeam(actor: string, id: string, name: string) returns (error: Option<Error>)
      modifies this`teams
      ensures Commits(old(View()), Outcome(old(View()), CallUpdateTeam(actor, id, name)), View(), error)
      ensures Keeps(old(View()), View()) && KeepsTeamAdmins(old(View()), View())
      ensures teams.Keys == old(teams).Keys && teams - {id} == old(teams) - {id}
    {
      ghost var before := View();
      if !IsSystemAdmin(View(), actor) {
        return Some(Forbidden);
      }
      if id !in teams {
        return Some(NotFound);
      }
      if TeamNameTaken(View(), name, id) {
        return Some(Conflict);
      }
      teams := teams[id := teams[id].(name := name)];
      Committed(before, CallUpdateTeam(actor, id, name), View());
      return None;
    }

    method DeleteTeam(actor: string, id: string) returns (error: Option<Error>)
      modifies this`teams, this`members
      ensures Commits(old(View()), Outcome(old(View()), CallDeleteTeam(actor, id)), View(), error)
      ensures Keeps(old(View()), View()) && KeepsTeamAdmins(old(View()), View())
      ensures error.None? ==> id !in teams && forall k :: k in members ==> k.0 != id
      ensures forall k: (string, string) :: k.0 != id ==>
                (k in members <==> k in old(members)) && (k in members ==> members[k] == old(members)[k])
    {
      ghost var before := View();
      if !IsSystemAdmin(View(), actor) {
        return Some(Forbidden);
      }
      if id !in teams {
        return Some(NotFound);
      }
      teams := teams - {id};
      members := map k | k in members && k.0 != id :: members[k];
      Committed(before, CallDeleteTeam(actor, id), View());
      return None;
    }

    method AddTeamMember(actor: string, team: string, user: string, role: string) returns (error: Option<Error>)
      modifies this`members
      ensures Commits(old(View()), Outcome(old(View()), CallAddTeamMember(actor, team, user, role)), View(), error)
      ensures Keeps(old(View()), View())
      ensures members - {(team, user)} == old(members) - {(team, user)}
      ensures Sound(old(View())) && EveryTeamHasAdmin(old(View())) ==>
                (EveryTeamHasAdmin(View()) <==> !(error.None? && role == "member" && OnlyTeamAdmin(old(View()), team, user)))
    {
      ghost var before := View();
      OnlyTeamAdminIs(View(), team, user);
      if !MayManageTeam(View(), actor, team) {
        return Some(Forbidden);
      }
      if !ValidRole(role) {
        return Some(Invalid);
      }
      if team !in teams || user !in users {
        return Some(NotFound);
      }
      members := members[(team, user) := role];
      Committed(before, CallAddTeamMember(actor, team, user, role), View());
      return None;
    }

    method SetTeamMemberRole(actor: string, team: string, user: string, role: string) returns (error: Option<Error>)
      modifies this`members
      ensures Commits(old(View()), Outcome(old(View()), CallSetTeamMemberRole(actor, team, user, role)), View(), error)
      ensures Keeps(old(View()), View()) && KeepsTeamAdmins(old(View()), View())
      ensures members - {(team, user)} == old(members) - {(team, user)}
      ensures error == Some(LastTeamAdmin) <==>
                role == "member" && MayManageTeam(old(View()), actor, team) && OnlyTeamAdmin(old(View()), team, user)
    {
      ghost var before := View();
      OnlyTeamAdminIs(View(), team, user);
      if !ValidRole(role) {
        return Some(Invalid);
      }
      if !MayManageTeam(View(), actor, team) {
        return Some(Forbidden);
      }
      if (team, user) !in members {
        return Some(NotFound);
      }
      if members[(team, user)] == "admin" && role != "admin" {
        if !AnotherTeamAdmin(View(), team, user) {
          return Some(LastTeamAdmin);
        }
      }
      members := members[(team, user) := role];
      Committed(before, CallSetTeamMemberRole(actor, team, user, role), View());
      return None;
    }

    method RemoveTeamMember(actor: string, team: string, user: string) returns (error: Option<Error>)
      modifies this`members
      ensures Commits(old(View()), Outcome(old(View()), CallRemoveTeamMember(actor, team, user)), View(), error)
      ensures Keeps(old(View()), View()) && KeepsTeamAdmins(old(View()), View())
      ensures members - {(team, user)} == old(members) - {(team, user)}
      ensures error == Some(LastTeamAdmin) <==> MayManageTeam(old(View()), actor, team) && OnlyTeamAdmin(old(View()), team, user)
    {
      ghost var before := View();
      OnlyTeamAdminIs(View(), team, user);
      if !MayManageTeam(View(), actor, team) {
        return Some(Forbidden);
      }
      if (team, user) !in members {
        return Some(NotFound);
      }
      if members[(team, user)] == "admin" {
        if !AnotherTeamAdmin(View(), team, user) {
          return Some(LastTeamAdmin);
        }
      }
      members := members - {(team, user)};
      Committed(before, CallRemoveTeamMember(actor, team, user), View());
      return None;
    }

    /** The first loop of `SetUserTeamMemberships`: no empty team, no unknown role, no repeat. */
    static method CheckAssignments(assignments: seq<Assignment>) returns (ok: bool)
      ensures ok == ValidAssignments(assignments)
    {
      var seen: set<string> := {};
      for i := 0 to |assignments|
        invariant ValidAssignments(assignments[..i])
        invariant forall t :: t in seen <==> exists j :: 0 <= j < i && assignments[j].team == t
      {
        var a := assignments[i];
        if a.team == "" || !ValidRole(a.role) || a.team in seen {
          return false;
        }
        assert assignments[..i + 1] == assignments[..i] + [a];
        seen := seen + {a.team};
      }
      assert assignments[..|assignments|] == assignments;
      return true;
    }

    /** The deletes: of the user's rows, those of teams not asked for. */
    static method DropRows(rows: map<(string, string), string>, user: string, desired: set<string>)
      returns (r: map<(string, string), string>)
      ensures r == Kept(rows, user, desired)
    {
      r := rows;
      var todo := set k | k in rows && k.1 == user && k.0 !in desired;
      while todo != {}
        invariant forall k :: k in todo ==> k.1 == user && k.0 !in desired
        invariant Kept(r, user, desired) == Kept(rows, user, desired)
        invariant forall k :: k in r && k.1 == user && k.0 !in desired ==> k in todo
        decreases |todo|
      {
        var k :| k in todo;
        todo := todo - {k};
        r := r - {k};
      }
      assert r == Kept(r, user, desired);
    }

    /** The upserts, one per assignment; a missing team ends the transaction. */
    method UpsertRows(rows: map<(string, string), string>, user: string, assignments: seq<Assignment>)
      returns (r: Option<map<(string, string), string>>)
      ensures r.Some? <==> Desired(assignments).Keys <= teams.Keys
      ensures r.Some? ==> r.value == Upserted(rows, user, assignments)
    {
      var out := rows;
      for i := 0 to |assignments|
        invariant Desired(assignments[..i]).Keys <= teams.Keys
        invariant out == Upserted(rows, user, assignments[..i])
      {
        assert assignments[..i + 1][..i] == assignments[..i];
        var a := assignments[i];
        if a.team !in teams {
          DesiredGrows(assignments, i + 1, a.team);
          return None;
        }
        out := out[(a.team, user) := a.role];
      }
      assert assignments[..|assignments|] == assignments;
      return Some(out);
    }

    method SetUserTeamMemberships(actor: string, user: string, assignments: seq<Assignment>) returns (error: Option<Error>)
      modifies this`members
      ensures Commits(old(View()), Outcome(old(View()), CallSetMemberships(actor, user, assignments)), View(), error)
      ensures Keeps(old(View()), View()) && KeepsTeamAdmins(old(View()), View())
    {
      ghost var before := View();
      var valid := CheckAssignments(assignments);
      if !valid {
        return Some(Invalid);
      }
      if !IsSystemAdmin(View(), actor) {
        return Some(Forbidden);
      }
      if user !in users {
        return Some(NotFound);
      }
      var desired := Desired(assignments);
      var led := OthersLeadAll(LostTeams(View(), user, desired), user);
      if !led {
        return Some(LastTeamAdmin);
      }
      var rows := DropRows(members, user, desired.Keys);
      var upserted := UpsertRows(rows, user, assignments);
      if upserted.None? {
        return Some(NotFound);
      }
      members := upserted.value;
      Committed(before, CallSetMemberships(actor, user, assignments), View());
      return None;
    }
  }

  lemma {:induction false} DesiredGrows(assignments: seq<Assignment>, n: nat, team: string)
    requires n <= |assignments| && team in Desired(assignments[..n])
    ensures team in Desired(assignments)
    decreases |assignments| - n
  {
    if n < |assignments| {
      assert assignments[..n + 1][..n] == assignments[..n];
      DesiredGrows(assignments, n + 1, team);
    } else {
      assert assignments[..n] == assignments;
    }
  }

  // ---------------------------------------------------------------- the tables stay sound

  lemma BootstrapSound(db: Db, id: string, username: string)
    requires Sound(db) && BootstrapAdmin(db, id, username).Ok?
    ensures Sound(BootstrapAdmin(db, id, username).value)
  {
    var next := BootstrapAdmin(db, id, username).value;
    NoUsersNoTeams(db);
    assert next.users.Keys == {id};
  }

  lemma NoUsersNoTeams(db: Db)
    requires Sound(db) && db.users == map[]
    ensures db.members == map[] && db.teams == map[]
  {
    assert forall k :: k in db.members ==> k.1 in db.users;
    assert forall t :: t !in db.teams;
  }

  lemma CreateUserSound(db: Db, actor: string, id: string, username: string, displayName: string, role: string)
    requires Sound(db) && CreateUser(db, actor, id, username, displayName, role).Ok?
    ensures Sound(CreateUser(db, actor, id, username, displayName, role).value)
  {
  }

  lemma CreateTeamSound(db: Db, actor: string, id: string, name: string)
    requires Sound(db) && CreateTeam(db, actor, id, name).Ok?
    ensures Sound(CreateTeam(db, actor, id, name).value)
  {
  }

  lemma UpdateUserSound(db: Db, actor: string, id: string, update: UserUpdate)
    requires Sound(db) && UpdateUser(db, actor, id, update).Ok?
    ensures Sound(UpdateUser(db, actor, id, update).value)
  {
  }

  lemma DeleteUserSound(db: Db, actor: string, id: string)
    requires Sound(db) && DeleteUser(db, actor, id).Ok?
    ensures Sound(DeleteUser(db, actor, id).value)
  {
    assert actor in db.users && actor != id;
  }

  lemma TeamStepsSound(db: Db, actor: string, id: string, name: string)
    requires Sound(db)
    ensures UpdateTeam(db, actor, id, name).Ok? ==> Sound(UpdateTeam(db, actor, id, name).value)
    ensures DeleteTeam(db, actor, id).Ok? ==> Sound(DeleteTeam(db, actor, id).value)
  {
  }

  lemma MemberStepsSound(db: Db, actor: string, team: string, user: string, role: string)
    requires Sound(db)
    ensures AddTeamMember(db, actor, team, user, role).Ok? ==> Sound(AddTeamMember(db, actor, team, user, role).value)
    ensures SetTeamMemberRole(db, actor, team, user, role).Ok? ==> Sound(SetTeamMemberRole(db, actor, team, user, role).value)
    ensures RemoveTeamMember(db, actor, team, user).Ok? ==> Sound(RemoveTeamMember(db, actor, team, user).value)
  {
  }

  lemma {:induction false} DesiredIs(assignments: seq<Assignment>)
    requires ValidAssignments(assignments)
    ensures forall t :: t in Desired(assignments) ==> ValidRole(Desired(assignments)[t])
    ensures forall i :: 0 <= i < |assignments| ==>
              assignments[i].team in Desired(assignments) && Desired(assignments)[assignments[i].team] == assignments[i].role
    ensures forall t :: t in Desired(assignments) ==> exists i :: 0 <= i < |assignments| && assignments[i].team == t
  {
    if assignments != [] {
      var front := assignments[..|assignments| - 1];
      DesiredIs(front);
      assert forall i :: 0 <= i < |front| ==> assignments[i] == front[i];
    }
  }

  lemma SetMembershipsSound(db: Db, actor: string, user: string, assignments: seq<Assignment>)
    requires Sound(db) && SetUserTeamMemberships(db, actor, user, assignments).Ok?
    ensures Sound(SetUserTeamMemberships(db, actor, user, assignments).value)
  {
    DesiredIs(assignments);
    forall k | k in Reassigned(db, user, assignments)
      ensures k.0 in db.teams && k.1 in db.users && ValidRole(Reassigned(db, user, assignments)[k])
    {
      assert k == (k.0, k.1);
      ReassignedIs(db, user, assignments, k.0, k.1);
    }
  }

  lemma NextIsSound(db: Db, call: Call)
    requires Sound(db)
    ensures Sound(Next(db, call))
  {
    if Outcome(db, call).Ok? {
      match call
      case CallBootstrap(id, username) => BootstrapSound(db, id, username);
      case CallCreateUser(actor, id, username, displayName, role) => CreateUserSound(db, actor, id, username, displayName, role);
      case CallUpdateUser(actor, user, update) => UpdateUserSound(db, actor, user, update);
      case CallDeleteUser(actor, user) => DeleteUserSound(db, actor, user);
      case CallCreateTeam(actor, id, name) => CreateTeamSound(db, actor, id, name);
      case CallUpdateTeam(actor, team, name) => TeamStepsSound(db, actor, team, name);
      case CallDeleteTeam(actor, team) => TeamStepsSound(db, actor, team, "");
      case CallAddTeamMember(actor, team, user, role) => MemberStepsSound(db, actor, team, user, role);
      case CallSetTeamMemberRole(actor, team, user, role) => MemberStepsSound(db, actor, team, user, role);
      case CallRemoveTeamMember(actor, team, user) => MemberStepsSound(db, actor, team, user, "");
      case CallSetMemberships(actor, user, assignments) => SetMembershipsSound(db, actor, user, assignments);
    }
  }

  // ---------------------------------------------------------------- someone always rules

  lemma UserChangeKeepsRule(db: Db, actor: string, id: string, update: UserUpdate)
    ensures UpdateUser(db, actor, id, update).Ok? ==> exists u :: IsSystemAdmin(UpdateUser(db, actor, id, update).value, u)
    ensures DeleteUser(db, actor, id).Ok? ==> exists u :: IsSystemAdmin(DeleteUser(db, actor, id).value, u)
  {
    if UpdateUser(db, actor, id, update).Ok? {
      var next := UpdateUser(db, actor, id, update).value;
      if IsSystemAdmin(next, actor) {
      } else {
        var u :| u in db.users && u != id && IsSystemAdmin(db, u);
        assert IsSystemAdmin(next, u);
      }
    }
    if DeleteUser(db, actor, id).Ok? {
      assert IsSystemAdmin(DeleteUser(db, actor, id).value, actor);
    }
  }

  lemma NextKeepsRule(db: Db, call: Call)
    requires SomeoneRules(db)
    ensures SomeoneRules(Next(db, call))
    ensures db.users != map[] ==> Next(db, call).users != map[]
  {
    if Outcome(db, call).Ok? {
      if call.CallBootstrap? {
        assert IsSystemAdmin(Next(db, call), call.id);
      } else if call.CallCreateUser? {
        assert IsSystemAdmin(Next(db, call), call.actor);
      } else if call.CallUpdateUser? {
        UserChangeKeepsRule(db, call.actor, call.user, call.update);
      } else if call.CallDeleteUser? {
        UserChangeKeepsRule(db, call.actor, call.user, UserUpdate(None, None, None, None));
      } else {
        SameUsersRule(db, Next(db, call));
      }
    }
  }

  lemma SameUsersRule(db: Db, next: Db)
    requires SomeoneRules(db) && next.users == db.users
    ensures SomeoneRules(next)
  {
    if db.users != map[] {
      var u :| IsSystemAdmin(db, u);
      assert IsSystemAdmin(next, u);
    }
  }

  // ---------------------------------------------------------------- every team keeps an admin

  /** The upsert that `AddTeamMember` runs without a guard takes the only admin's role away. */
  predicate DemotesLastAdmin(db: Db, call: Call) {
    && call.CallAddTeamMember? && Outcome(db, call).Ok? && call.role != "admin"
    && IsTeamAdmin(db, call.team, call.user) && !AnotherTeamAdmin(db, call.team, call.user)
  }

  lemma OtherLeads(db: Db, team: string, except: string) returns (other: string)
    requires AnotherTeamAdmin(db, team, except)
    ensures other != except && IsTeamAdmin(db, team, other)
  {
    var k :| k in db.members && k.0 == team && k.1 != except && db.members[k] == "admin";
    assert k == (k.0, k.1);
    other := k.1;
  }

  lemma LeaderIsOther(db: Db, team: string, user: string, except: string)
    requires IsTeamAdmin(db, team, user) && user != except
    ensures AnotherTeamAdmin(db, team, except)
  {
    assert (team, user) in db.members && (team, user).0 == team && (team, user).1 == user;
  }

  /** A change of one membership row keeps the team's admin if the user was none, stays one,
      or another one is there. */
  lemma OneRowChange(db: Db, next: Db, team: string, user: string)
    requires EveryTeamHasAdmin(db) && next.teams == db.teams
    requires forall k :: k != (team, user) ==> (k in next.members <==> k in db.members)
    requires forall k :: k != (team, user) && k in db.members ==> next.members[k] == db.members[k]
    requires !IsTeamAdmin(db, team, user) || IsTeamAdmin(next, team, user) || AnotherTeamAdmin(db, team, user)
    ensures EveryTeamHasAdmin(next)
  {
    forall t | t in next.teams
      ensures TeamHasAdmin(next, t)
    {
      var u :| IsTeamAdmin(db, t, u);
      if (t, u) != (team, user) || IsTeamAdmin(next, team, user) {
        assert IsTeamAdmin(next, t, u);
      } else {
        var other := OtherLeads(db, team, user);
        assert IsTeamAdmin(next, t, other);
      }
    }
  }

  lemma MemberCallsKeepAdmins(db: Db, call: Call)
    requires EveryTeamHasAdmin(db) && !DemotesLastAdmin(db, call) && Outcome(db, call).Ok?
    requires call.CallAddTeamMember? || call.CallSetTeamMemberRole? || call.CallRemoveTeamMember?
    ensures EveryTeamHasAdmin(Next(db, call))
  {
    OneRowChange(db, Next(db, call), call.team, call.user);
  }

  lemma CreateTeamKeepsAdmins(db: Db, actor: string, id: string, name: string)
    requires EveryTeamHasAdmin(db) && CreateTeam(db, actor, id, name).Ok?
    ensures EveryTeamHasAdmin(CreateTeam(db, actor, id, name).value)
  {
    var next := CreateTeam(db, actor, id, name).value;
    forall t | t in next.teams
      ensures TeamHasAdmin(next, t)
    {
      if t == id {
        assert IsTeamAdmin(next, t, actor);
      } else {
        var u :| IsTeamAdmin(db, t, u);
        assert IsTeamAdmin(next, t, u);
      }
    }
  }

  lemma DeleteTeamKeepsAdmins(db: Db, actor: string, id: string)
    requires EveryTeamHasAdmin(db) && DeleteTeam(db, actor, id).Ok?
    ensures EveryTeamHasAdmin(DeleteTeam(db, actor, id).value)
  {
    var next := DeleteTeam(db, actor, id).value;
    forall t | t in next.teams
      ensures TeamHasAdmin(next, t)
    {
      var u :| IsTeamAdmin(db, t, u);
      assert (t, u).0 == t && IsTeamAdmin(next, t, u);
    }
  }

  lemma DeleteUserKeepsAdmins(db: Db, actor: string, id: string)
    requires EveryTeamHasAdmin(db) && DeleteUser(db, actor, id).Ok?
    ensures EveryTeamHasAdmin(DeleteUser(db, actor, id).value)
  {
    var next := DeleteUser(db, actor, id).value;
    forall t | t in next.teams
      ensures TeamHasAdmin(next, t)
    {
      var u :| IsTeamAdmin(db, t, u);
      if u == id {
        AdminTeamsHas(db, id, t);
        var other := OtherLeads(db, t, id);
        assert (t, other).1 != id && IsTeamAdmin(next, t, other);
      } else {
        assert (t, u).1 != id && IsTeamAdmin(next, t, u);
      }
    }
  }

  lemma AdminTeamsHas(db: Db, user: string, team: string)
    ensures team in AdminTeams(db, user) <==> IsTeamAdmin(db, team, user)
  {
    if IsTeamAdmin(db, team, user) {
      assert (team, user) in db.members && (team, user).1 == user && (team, user).0 == team;
    }
    if team in AdminTeams(db, user) {
      var k :| k in db.members && k.1 == user && db.members[k] == "admin" && k.0 == team;
      assert k == (team, user);
    }
  }

  lemma {:induction false} UpsertedIs(rows: map<(string, string), string>, user: string, assignments: seq<Assignment>, k: (string, string))
    ensures k in Upserted(rows, user, assignments) <==> (k.1 == user && k.0 in Desired(assignments)) || k in rows
    ensures k in Upserted(rows, user, assignments) ==>
              Upserted(rows, user, assignments)[k]
              == if k.1 == user && k.0 in Desired(assignments) then Desired(assignments)[k.0] else rows[k]
  {
    if assignments != [] {
      UpsertedIs(rows, user, assignments[..|assignments| - 1], k);
      assert k == (k.0, k.1);
    }
  }

  /** Afterwards the user is in exactly the teams asked for, with the roles asked for, and
      nobody else's membership has changed. */
  lemma ReassignedIs(db: Db, user: string, assignments: seq<Assignment>, t: string, u: string)
    ensures (t, u) in Reassigned(db, user, assignments) <==> if u == user then t in Desired(assignments) else (t, u) in db.members
    ensures (t, u) in Reassigned(db, user, assignments) ==>
              Reassigned(db, user, assignments)[(t, u)] == if u == user then Desired(assignments)[t] else db.members[(t, u)]
  {
    UpsertedIs(Kept(db.members, user, Desired(assignments).Keys), user, assignments, (t, u));
  }

  lemma SetMembershipsKeepsAdmins(db: Db, actor: string, user: string, assignments: seq<Assignment>)
    requires EveryTeamHasAdmin(db) && SetUserTeamMemberships(db, actor, user, assignments).Ok?
    ensures EveryTeamHasAdmin(SetUserTeamMemberships(db, actor, user, assignments).value)
  {
    var next, desired := SetUserTeamMemberships(db, actor, user, assignments).value, Desired(assignments);
    forall t | t in next.teams
      ensures TeamHasAdmin(next, t)
    {
      var u :| IsTeamAdmin(db, t, u);
      ReassignedIs(db, user, assignments, t, u);
      if IsTeamAdmin(next, t, u) {
      } else {
        assert u == user;
        AdminTeamsHas(db, user, t);
        assert t in LostTeams(db, user, desired);
        var other := OtherLeads(db, t, user);
        ReassignedIs(db, user, assignments, t, other);
        assert IsTeamAdmin(next, t, other);
      }
    }
  }

  lemma SameMembersLead(db: Db, next: Db)
    requires EveryTeamHasAdmin(db) && next.members == db.members && next.teams.Keys == db.teams.Keys
    ensures EveryTeamHasAdmin(next)
  {
    forall t | t in next.teams
      ensures TeamHasAdmin(next, t)
    {
      var u :| IsTeamAdmin(db, t, u);
      assert IsTeamAdmin(next, t, u);
    }
  }

  /** One call keeps an admin in every team if and only if it is not an `AddTeamMember` that
      demotes a team's only admin. */
  lemma NextKeepsAdminsExactly(db: Db, call: Call)
    requires EveryTeamHasAdmin(db) && Sound(db)
    ensures EveryTeamHasAdmin(Next(db, call)) <==> !DemotesLastAdmin(db, call)
  {
    if DemotesLastAdmin(db, call) {
      LastAdminIsGone(db, call);
    } else if Outcome(db, call).Ok? {
      match call
      case CallBootstrap(id, username) => SameMembersLead(db, Next(db, call));
      case CallCreateUser(actor, id, username, displayName, role) => SameMembersLead(db, Next(db, call));
      case CallUpdateUser(actor, user, update) => SameMembersLead(db, Next(db, call));
      case CallDeleteUser(actor, user) => DeleteUserKeepsAdmins(db, actor, user);
      case CallCreateTeam(actor, id, name) => CreateTeamKeepsAdmins(db, actor, id, name);
      case CallUpdateTeam(actor, team, name) => SameMembersLead(db, Next(db, call));
      case CallDeleteTeam(actor, team) => DeleteTeamKeepsAdmins(db, actor, team);
      case CallAddTeamMember(actor, team, user, role) => MemberCallsKeepAdmins(db, call);
      case CallSetTeamMemberRole(actor, team, user, role) => MemberCallsKeepAdmins(db, call);
      case CallRemoveTeamMember(actor, team, user) => MemberCallsKeepAdmins(db, call);
      case CallSetMemberships(actor, user, assignments) => SetMembershipsKeepsAdmins(db, actor, user, assignments);
    }
  }

  /** What a committed call keeps, whichever it is. */
  lemma Committed(before: Db, call: Call, after: Db)
    requires Outcome(before, call) == Ok(after)
    ensures Keeps(before, after)
    ensures !DemotesLastAdmin(before, call) ==> KeepsTeamAdmins(before, after)
    ensures DemotesLastAdmin(before, call) ==> !EveryTeamHasAdmin(after)
  {
    if Sound(before) {
      NextIsSound(before, call);
    }
    if SomeoneRules(before) {
      NextKeepsRule(before, call);
    }
    if DemotesLastAdmin(before, call) {
      LastAdminIsGone(before, call);
    } else if Sound(before) && EveryTeamHasAdmin(before) {
      NextKeepsAdminsExactly(before, call);
    }
  }

  lemma OnlyTeamAdminIs(db: Db, team: string, user: string)
    ensures OnlyTeamAdmin(db, team, user) <==> IsTeamAdmin(db, team, user) && !AnotherTeamAdmin(db, team, user)
  {
    if AnotherTeamAdmin(db, team, user) {
      var other := OtherLeads(db, team, user);
    }
    forall u | IsTeamAdmin(db, team, u) && u != user
      ensures AnotherTeamAdmin(db, team, user)
    {
      LeaderIsOther(db, team, u, user);
    }
  }

  lemma OnlySystemAdminIs(db: Db, user: string)
    ensures OnlySystemAdmin(db, user) <==> IsSystemAdmin(db, user) && !AnotherSystemAdmin(db, user)
  {
  }

  /** The guard on system admins refuses exactly one thing: that the only one takes the role
      away from itself. */
  lemma LastSystemAdminExactly(db: Db, actor: string, id: string, update: UserUpdate)
    ensures UpdateUser(db, actor, id, update) == Err(LastSystemAdmin) <==>
              && id == actor && OnlySystemAdmin(db, id)
              && update.role == Some("member") && update.disabled != Some(true) && update.displayName != Some("")
  {
    OnlySystemAdminIs(db, id);
  }

  /** The guard loops find out whether one of the teams has no other admin. */
  lemma OthersLeadExactly(db: Db, teams: set<string>, user: string)
    requires teams <= AdminTeams(db, user)
    ensures OthersLead(db, teams, user) <==> forall t :: t in teams ==> !OnlyTeamAdmin(db, t, user)
  {
    forall t | t in teams
      ensures OnlyTeamAdmin(db, t, user) <==> !AnotherTeamAdmin(db, t, user)
    {
      AdminTeamsHas(db, user, t);
      OnlyTeamAdminIs(db, t, user);
    }
  }

  /** The guard on team admins refuses to delete exactly the users who are the only admin of
      some team; the one on system admins never speaks, for the actor is another one. */
  lemma LastTeamAdminExactly(db: Db, actor: string, id: string)
    ensures DeleteUser(db, actor, id) != Err(LastSystemAdmin)
    ensures DeleteUser(db, actor, id) == Err(LastTeamAdmin) <==>
              IsSystemAdmin(db, actor) && id in db.users && id != actor && exists t :: OnlyTeamAdmin(db, t, id)
  {
    OthersLeadExactly(db, AdminTeams(db, id), id);
    OnlyTeamsAreAdminTeams(db, id);
  }

  lemma OnlyTeamsAreAdminTeams(db: Db, user: string)
    ensures forall t :: OnlyTeamAdmin(db, t, user) ==> t in AdminTeams(db, user)
  {
    forall t | OnlyTeamAdmin(db, t, user)
      ensures t in AdminTeams(db, user)
    {
      AdminTeamsHas(db, user, t);
    }
  }

  lemma LastAdminIsGone(db: Db, call: Call)
    requires DemotesLastAdmin(db, call)
    ensures call.team in Next(db, call).teams && !TeamHasAdmin(Next(db, call), call.team)
  {
    var next := Next(db, call);
    forall u
      ensures !IsTeamAdmin(next, call.team, u)
    {
      if u != call.user && IsTeamAdmin(db, call.team, u) {
        LeaderIsOther(db, call.team, u, call.user);
      }
    }
  }

  // ---------------------------------------------------------------- main results

  /** After any run of transactions the tables are sound, and once there are users one of
      them is an enabled system admin. */
  lemma {:induction false} EveryRunKeepsRule(calls: seq<Call>)
    ensures Sound(After(Empty(), calls)) && SomeoneRules(After(Empty(), calls))
  {
    if calls != [] {
      var before := calls[..|calls| - 1];
      EveryRunKeepsRule(before);
      NextIsSound(After(Empty(), before), calls[|calls| - 1]);
      NextKeepsRule(After(Empty(), before), calls[|calls| - 1]);
    }
  }

  /** The state before call `i`. */
  function At(calls: seq<Call>, i: nat): Db
    requires i <= |calls|
  {
    After(Empty(), calls[..i])
  }

  lemma AtStep(calls: seq<Call>, i: nat)
    requires i < |calls|
    ensures At(calls, i + 1) == Next(At(calls, i), calls[i])
  {
    assert calls[..i + 1][..i] == calls[..i];
  }

  lemma {:induction false} AdminsUpTo(calls: seq<Call>, n: nat)
    requires n <= |calls| && forall i :: 0 <= i < n ==> !DemotesLastAdmin(At(calls, i), calls[i])
    ensures EveryTeamHasAdmin(At(calls, n))
  {
    if n > 0 {
      AdminsUpTo(calls, n - 1);
      AtStep(calls, n - 1);
      EveryRunKeepsRule(calls[..n - 1]);
      NextKeepsAdminsExactly(At(calls, n - 1), calls[n - 1]);
    }
  }

  /** A run keeps an admin in every team at every point if and only if none of its calls is
      an `AddTeamMember` that demotes a team's only admin. */
  lemma RunsKeepAdminsExactly(calls: seq<Call>)
    ensures (forall n :: 0 <= n <= |calls| ==> EveryTeamHasAdmin(At(calls, n)))
       <==> forall i :: 0 <= i < |calls| ==> !DemotesLastAdmin(At(calls, i), calls[i])
  {
    if forall i :: 0 <= i < |calls| ==> !DemotesLastAdmin(At(calls, i), calls[i]) {
      forall n | 0 <= n <= |calls|
        ensures EveryTeamHasAdmin(At(calls, n))
      {
        AdminsUpTo(calls, n);
      }
    }
    if i :| 0 <= i < |calls| && DemotesLastAdmin(At(calls, i), calls[i]) {
      AtStep(calls, i);
      LastAdminIsGone(At(calls, i), calls[i]);
      assert !EveryTeamHasAdmin(At(calls, i + 1));
    }
  }

  /** A system admin who adds the only team admin again, as a member, leaves the team without
      one: bootstrap, create a team, add its creator as a member. */
  lemma UpsertDemotesTheOnlyAdmin()
    ensures var calls := [CallBootstrap("u", "root"), CallCreateTeam("u", "t", "team"), CallAddTeamMember("u", "t", "u", "member")];
            EveryTeamHasAdmin(At(calls, 2)) && !EveryTeamHasAdmin(At(calls, 3))
  {
    var calls := [CallBootstrap("u", "root"), CallCreateTeam("u", "t", "team"), CallAddTeamMember("u", "t", "u", "member")];
    AtStep(calls, 0);
    AtStep(calls, 1);
    AtStep(calls, 2);
    var root := User("root", "root", "admin", false);
    assert At(calls, 1) == Db(map["u" := root], map[], map[]);
    var db := At(calls, 2);
    assert db == Db(map["u" := root], map["t" := Team("team", "u")], map[("t", "u") := "admin"]);
    assert IsTeamAdmin(db, "t", "u");
    assert DemotesLastAdmin(db, calls[2]);
    LastAdminIsGone(db, calls[2]);
  }
}
