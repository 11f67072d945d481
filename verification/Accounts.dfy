/**
 Staff accounts: login and lockout, token versions, and the last administrator
 (apps/api/app/services/auth_service.py).

 Whether a password matches, or is acceptable as a new one, is an input of the call.
 */
module Accounts {
  import opened Wrappers

  const ADMIN := "admin"
  const ROLES := {"officer", "supervisor", "admin"}

  /** Limits from the settings; times are counted in microseconds. */
  datatype Config = Config(maxFailed: int, lockMinutes: int)

  function LockLength(cfg: Config): int {
    cfg.lockMinutes * 60_000_000
  }

  datatype User = User(
    username: string, role: string, active: bool, failed: nat, lockedUntil: Option<int>, version: nat)

  type Users = seq<User>

  /** The claims of a signed token that this service checks. */
  datatype Token = Token(user: nat, version: nat)

  datatype Outcome =
    | UnknownUser
    | Blocked(until: int)
    | Refused(lock: Option<int>)
    | Success(token: Token)

  datatype AccountError =
    | WrongPassword | WeakPassword | SamePassword | UnknownRole | OwnRole | OwnDeactivation | LastAdmin
    | BadName | NameTaken

  // ---- the calls ----

  function Find(users: Users, name: string): (i: Option<nat>)
    ensures i.Some? ==> i.value < |users| && users[i.value].username == name
    ensures i.None? ==> forall u <- users :: u.username != name
  {
    if users == [] then None
    else if users[0].username == name then Some(0)
    else
      var rest := Find(users[1..], name);
      assert users == [users[0]] + users[1..];
      if rest.Some? then Some(rest.value + 1) else None
  }

  function IssueToken(users: Users, u: nat): Token
    requires u < |users|
  {
    Token(u, users[u].version)
  }

  /** `user_from_token`: the account exists, is active, and has not moved on since the token was issued. */
  predicate TokenValid(users: Users, t: Token) {
    t.user < |users| && users[t.user].active && users[t.user].version == t.version
  }

  /** One login attempt on an existing account. */
  function Attempted(u: User, matches: bool, now: int, cfg: Config): User {
    if u.lockedUntil.Some? && u.lockedUntil.value > now then u
    else if !u.active || !matches then
      if u.failed + 1 >= cfg.maxFailed then u.(failed := 0, lockedUntil := Some(now + LockLength(cfg)))
      else u.(failed := u.failed + 1)
    else u.(failed := 0, lockedUntil := None)
  }

  function AttemptOutcome(id: nat, u: User, matches: bool, now: int, cfg: Config): Outcome {
    if u.lockedUntil.Some? && u.lockedUntil.value > now then Blocked(u.lockedUntil.value)
    else if !u.active || !matches then
      Refused(if u.failed + 1 >= cfg.maxFailed then Some(now + LockLength(cfg)) else None)
    else Success(Token(id, u.version))
  }

  /** The answer to an attempt on account `u`: blocked exactly while its lock lasts; successful exactly when the lock is
      over, the account is active and the password matches, with a token for it and a clean slate; refused otherwise,
      with a lock of `lockMinutes` exactly when this failure is one too many. */
  ghost predicate Answers(cfg: Config, id: nat, u: User, matches: bool, now: int, outcome: Outcome, after: User) {
    && (outcome.Success? <==>
         (u.lockedUntil == None || u.lockedUntil.value <= now) && u.active && matches)
    && (outcome.Success? ==> outcome.token == Token(id, u.version) && after == u.(failed := 0, lockedUntil := None))
    && (outcome.Blocked? <==> u.lockedUntil.Some? && u.lockedUntil.value > now)
    && (outcome.Blocked? ==> Some(outcome.until) == u.lockedUntil && after == u)
    && (outcome.Refused? && u.failed + 1 < cfg.maxFailed ==>
         outcome.lock == None && after == u.(failed := u.failed + 1))
    && (outcome.Refused? && u.failed + 1 >= cfg.maxFailed ==>
         && outcome.lock == Some(now + cfg.lockMinutes * 60_000_000)
         && after == u.(failed := 0, lockedUntil := outcome.lock))
    && !outcome.UnknownUser?
  }

  /** What an attempt answers and stores, in terms of the stored account and the settings. */
  lemma {:induction false} AttemptAnswers(cfg: Config, id: nat, u: User, matches: bool, now: int)
    ensures Answers(cfg, id, u, matches, now, AttemptOutcome(id, u, matches, now, cfg), Attempted(u, matches, now, cfg))
  {
  }

  predicate AnotherAdmin(users: Users, u: nat) {
    exists v :: 0 <= v < |users| && v != u && users[v].role == ADMIN && users[v].active
  }

  /** `_ensure_admin_remains`. */
  predicate AdminRemains(users: Users, u: nat, newRole: Option<string>, newActive: Option<bool>)
    requires u < |users|
  {
    var user := users[u];
    if user.role != ADMIN || !user.active then true
    else if (if newRole.Some? then newRole.value else user.role) == ADMIN
         && (if newActive.Some? then newActive.value else user.active) then true
    else AnotherAdmin(users, u)
  }

  function WithRole(users: Users, u: nat, actor: Option<nat>, role: Option<string>): Result<Users, AccountError>
    requires u < |users|
  {
    if role.None? || role.value == users[u].role then Ok(users)
    else if role.value !in ROLES then Err(UnknownRole)
    else if actor == Some(u) then Err(OwnRole)
    else if !AdminRemains(users, u, role, None) then Err(LastAdmin)
    else Ok(users[u := users[u].(role := role.value, version := users[u].version + 1)])
  }

  function WithActive(users: Users, u: nat, actor: Option<nat>, active: Option<bool>): Result<Users, AccountError>
    requires u < |users|
  {
    if active.None? || active.value == users[u].active then Ok(users)
    else if actor == Some(u) && !active.value then Err(OwnDeactivation)
    else if !active.value && !AdminRemains(users, u, None, Some(false)) then Err(LastAdmin)
    else Ok(users[u := users[u].(active := active.value, version := users[u].version + 1)])
  }

  /** A new password, given whether it is acceptable. */
  function WithPassword(users: Users, u: nat, password: Option<bool>): Result<Users, AccountError>
    requires u < |users|
  {
    if password.None? then Ok(users)
    else if !password.value then Err(WeakPassword)
    else Ok(users[u := users[u].(version := users[u].version + 1, failed := 0, lockedUntil := None)])
  }

  datatype Change = Change(role: Option<string>, active: Option<bool>, password: Option<bool>)

  /** `update_user`: all of the changes, or none of them. */
  function Updated(users: Users, u: nat, actor: Option<nat>, change: Change): Result<Users, AccountError>
    requires u < |users|
  {
    var r1 := WithRole(users, u, actor, change.role);
    if r1.Err? then r1
    else
      var r2 := WithActive(r1.value, u, actor, change.active);
      if r2.Err? then r2 else WithPassword(r2.value, u, change.password)
  }

  /** The requested role and state of the account, or the ones it has. */
  ghost predicate Changed(u: User, change: Change, after: User) {
    && after.username == u.username
    && after.role == (if change.role.Some? then change.role.value else u.role)
    && after.active == (if change.active.Some? then change.active.value else u.active)
    && (change.password.Some? ==> after.failed == 0 && after.lockedUntil == None)
    && (change.password.None? ==> after.failed == u.failed && after.lockedUntil == u.lockedUntil)
    && after.version == u.version
         + (if after.role != u.role then 1 else 0) + (if after.active != u.active then 1 else 0)
         + (if change.password.Some? then 1 else 0)
  }

  /** Nobody else is an active administrator. */
  ghost predicate OnlyAdmin(users: Users, u: nat) {
    forall v :: 0 <= v < |users| && v != u ==> !(users[v].role == ADMIN && users[v].active)
  }

  ghost function RoleObjection(users: Users, u: nat, actor: Option<nat>, role: string): Option<AccountError>
    requires u < |users|
  {
    if role == users[u].role then None
    else if role !in {"officer", "supervisor", ADMIN} then Some(UnknownRole)
    else if actor == Some(u) then Some(OwnRole)
    else if users[u].role == ADMIN && users[u].active && OnlyAdmin(users, u) then Some(LastAdmin)
    else None
  }

  /** `role` is the one that the account has by then. */
  ghost function StateObjection(users: Users, u: nat, actor: Option<nat>, role: string, active: bool)
    : Option<AccountError>
    requires u < |users|
  {
    if active || !users[u].active then None
    else if actor == Some(u) then Some(OwnDeactivation)
    else if role == ADMIN && OnlyAdmin(users, u) then Some(LastAdmin)
    else None
  }

  /** What speaks first against a change: an unknown role, one's own role, taking the role from the only active
      administrator, deactivating oneself, deactivating the only one, a weak password. */
  ghost function FirstObjection(users: Users, u: nat, actor: Option<nat>, change: Change): Option<AccountError>
    requires u < |users|
  {
    var role := if change.role.Some? then change.role.value else users[u].role;
    var active := if change.active.Some? then change.active.value else users[u].active;
    if RoleObjection(users, u, actor, role).Some? then RoleObjection(users, u, actor, role)
    else if StateObjection(users, u, actor, role, active).Some? then StateObjection(users, u, actor, role, active)
    else if change.password == Some(false) then Some(WeakPassword)
    else None
  }

  lemma {:induction false} OnlyOrAnother(users: Users, u: nat)
    requires u < |users|
    ensures OnlyAdmin(users, u) <==> !AnotherAdmin(users, u)
  {
    if !OnlyAdmin(users, u) {
      var v :| 0 <= v < |users| && v != u && users[v].role == ADMIN && users[v].active;
      assert AnotherAdmin(users, u);
    }
  }

  /** What the account itself was changed to before makes no difference to the second test. */
  lemma {:induction false} SameStateObjection(
      users: Users, u: nat, user: User, actor: Option<nat>, role: string, active: bool)
    requires u < |users| && user.active == users[u].active
    ensures StateObjection(users[u := user], u, actor, role, active) == StateObjection(users, u, actor, role, active)
  {
    var changed := users[u := user];
    assert forall v :: 0 <= v < |users| && v != u ==> changed[v] == users[v];
    assert OnlyAdmin(changed, u) <==> OnlyAdmin(users, u);
  }

  lemma {:induction false} RoleMeans(users: Users, u: nat, actor: Option<nat>, role: Option<string>)
    requires u < |users|
    ensures var r, wanted := WithRole(users, u, actor, role), if role.Some? then role.value else users[u].role;
      && RoleObjection(users, u, actor, wanted) == (if r.Err? then Some(r.error) else None)
      && (r.Ok? ==> r.value == users[u := users[u].(
           role := wanted, version := users[u].version + if wanted != users[u].role then 1 else 0)])
  {
    OnlyOrAnother(users, u);
  }

  lemma {:induction false} StateMeans(users: Users, u: nat, actor: Option<nat>, active: Option<bool>)
    requires u < |users|
    ensures var wanted := if active.Some? then active.value else users[u].active;
      var r := WithActive(users, u, actor, active);
      && StateObjection(users, u, actor, users[u].role, wanted) == (if r.Err? then Some(r.error) else None)
      && (r.Ok? ==> r.value == users[u := users[u].(
           active := wanted, version := users[u].version + if wanted != users[u].active then 1 else 0)])
  {
    OnlyOrAnother(users, u);
  }

  lemma {:induction false} PasswordMeans(users: Users, u: nat, password: Option<bool>)
    requires u < |users|
    ensures var r := WithPassword(users, u, password);
      && (r.Err? <==> password == Some(false)) && (r.Err? ==> r.error == WeakPassword)
      && (r.Ok? && password.None? ==> r.value == users)
      && (r.Ok? && password.Some? ==>
           r.value == users[u := users[u].(version := users[u].version + 1, failed := 0, lockedUntil := None)])
  {
  }

  /** An update is refused exactly for the first of these reasons, and otherwise does all that was asked. */
  lemma {:induction false} UpdatedMeans(users: Users, u: nat, actor: Option<nat>, change: Change)
    requires u < |users|
    ensures var r := Updated(users, u, actor, change);
      && FirstObjection(users, u, actor, change) == (if r.Err? then Some(r.error) else None)
      && (r.Ok? ==> |r.value| == |users| && r.value == users[u := r.value[u]] && Changed(users[u], change, r.value[u]))
  {
    RoleMeans(users, u, actor, change.role);
    var r1 := WithRole(users, u, actor, change.role);
    if r1.Ok? {
      AfterRole(users, r1.value, u, actor, change);
    }
  }

  lemma {:induction false} AfterRole(users: Users, users': Users, u: nat, actor: Option<nat>, change: Change)
    requires u < |users|
    requires var wanted := if change.role.Some? then change.role.value else users[u].role;
      users' == users[u := users[u].(
        role := wanted, version := users[u].version + if wanted != users[u].role then 1 else 0)]
    ensures var r2 := WithActive(users', u, actor, change.active);
      var role := if change.role.Some? then change.role.value else users[u].role;
      var active := if change.active.Some? then change.active.value else users[u].active;
      && StateObjection(users, u, actor, role, active) == (if r2.Err? then Some(r2.error) else None)
      && (r2.Ok? ==>
           var r := WithPassword(r2.value, u, change.password);
           && (r.Err? <==> change.password == Some(false)) && (r.Err? ==> r.error == WeakPassword)
           && (r.Ok? ==>
                |r.value| == |users| && r.value == users[u := r.value[u]] && Changed(users[u], change, r.value[u])))
  {
    StateMeans(users', u, actor, change.active);
    SameStateObjection(users, u, users'[u], actor, users'[u].role,
                       if change.active.Some? then change.active.value else users[u].active);
    var r2 := WithActive(users', u, actor, change.active);
    if r2.Ok? {
      PasswordMeans(r2.value, u, change.password);
    }
  }

  function PasswordChanged(users: Users, u: nat, matches: bool, acceptable: bool, same: bool)
    : Result<Users, AccountError>
    requires u < |users|
  {
    if !matches then Err(WrongPassword)
    else if !acceptable then Err(WeakPassword)
    else if same then Err(SamePassword)
    else Ok(users[u := users[u].(version := users[u].version + 1)])
  }

  /** A new account, given whether each character of its name is a letter, a digit or one of `._-`. */
  function Created(users: Users, name: string, wellFormed: bool, role: string, acceptable: bool)
    : Result<Users, AccountError>
  {
    if name == "" || !wellFormed then Err(BadName)
    else if role !in ROLES then Err(UnknownRole)
    else if !acceptable then Err(WeakPassword)
    else if Find(users, name).Some? then Err(NameTaken)
    else Ok(users + [User(name, role, true, 0, None, 0)])
  }

  // ---- the service, updating accounts in place ----

  class AccountService {
    const config: Config
    var users: Users

    constructor (config: Config)
      ensures users == [] && this.config == config
    {
      this.config, users := config, [];
    }

    method Login(name: string, matches: bool, now: int) returns (outcome: Outcome)
      modifies this`users
      ensures users == Apply(config, old(users), Op.Login(name, matches, now))
      ensures var u := Find(old(users), name);
        outcome == if u.None? then UnknownUser
                   else AttemptOutcome(u.value, old(users)[u.value], matches, now, config)
      ensures outcome.UnknownUser? <==> forall u <- old(users) :: u.username != name
      ensures outcome.UnknownUser? ==> users == old(users)
      ensures !outcome.UnknownUser? ==>
        exists u: nat :: u < |old(users)| && u < |users| && old(users)[u].username == name
                         && users == old(users)[u := users[u]]
                         && Answers(config, u, old(users)[u], matches, now, outcome, users[u])
      ensures outcome.Success? ==> TokenValid(users, outcome.token)
    {
      var found := Find(users, name);
      if found.None? {
        return UnknownUser;
      }
      var u := found.value;
      var user := users[u];
      assert user in users && user.username == name;
      if user.lockedUntil.Some? && user.lockedUntil.value > now {
        return Blocked(user.lockedUntil.value);
      }
      if !user.active || !matches {
        user := user.(failed := user.failed + 1);
        var locked := None;
        if user.failed >= config.maxFailed {
          locked := Some(now + LockLength(config));
          user := user.(lockedUntil := locked, failed := 0);
        }
        users := users[u := user];
        return Refused(locked);
      }
      users := users[u := user.(failed := 0, lockedUntil := None)];
      return Success(IssueToken(users, u));
    }

    method Logout(u: nat)
      requires u < |users|
      modifies this`users
      ensures users == Apply(config, old(users), Op.Logout(u))
      ensures users == old(users)[u := old(users)[u].(version := old(users)[u].version + 1)]
      ensures forall t: Token :: t.user == u && TokenValid(old(users), t) ==> !TokenValid(users, t)
    {
      users := users[u := users[u].(version := users[u].version + 1)];
    }

    method ChangePassword(u: nat, matches: bool, acceptable: bool, same: bool) returns (r: Result<Token, AccountError>)
      requires u < |users|
      modifies this`users
      ensures users == Apply(config, old(users), Op.ChangePassword(u, matches, acceptable, same))
      ensures r.Ok? <==> matches && acceptable && !same
      ensures r.Ok? ==> r.value == Token(u, users[u].version)
      ensures r.Ok? ==> users == old(users)[u := old(users)[u].(version := old(users)[u].version + 1)]
      ensures r.Err? ==> users == old(users)
      ensures r.Err? ==>
        r.error == if !matches then WrongPassword else if !acceptable then WeakPassword else SamePassword
    {
      if !matches {
        return Err(WrongPassword);
      }
      if !acceptable {
        return Err(WeakPassword);
      }
      if same {
        return Err(SamePassword);
      }
      users := users[u := users[u].(version := users[u].version + 1)];
      return Ok(IssueToken(users, u));
    }

    method CreateUser(name: string, wellFormed: bool, role: string, acceptable: bool)
      returns (r: Result<nat, AccountError>)
      modifies this`users
      ensures users == Apply(config, old(users), Op.CreateUser(name, wellFormed, role, acceptable))
      ensures r.Ok? <==> Created(old(users), name, wellFormed, role, acceptable).Ok?
      ensures r.Ok? ==> r.value == |old(users)| && |users| == |old(users)| + 1
      ensures r.Err? && r.error == BadName <==> name == "" || !wellFormed
      ensures r.Err? && r.error == UnknownRole <==>
        name != "" && wellFormed && role !in {"officer", "supervisor", "admin"}
      ensures r.Err? && r.error == WeakPassword <==>
        name != "" && wellFormed && role in {"officer", "supervisor", "admin"} && !acceptable
      ensures r.Ok? <==>
        && name != "" && wellFormed && role in {"officer", "supervisor", "admin"} && acceptable
        && forall u <- old(users) :: u.username != name
      ensures r.Err? ==> users == old(users) && r.error in {BadName, UnknownRole, WeakPassword, NameTaken}
      ensures r.Ok? ==> users == old(users) + [User(name, role, true, 0, None, 0)]
      ensures r.Err? ==> Created(old(users), name, wellFormed, role, acceptable) == Err(r.error)
    {
      if name == "" || !wellFormed {
        return Err(BadName);
      }
      if role !in ROLES {
        return Err(UnknownRole);
      }
      if !acceptable {
        return Err(WeakPassword);
      }
      var taken := Find(users, name);
      if taken.Some? {
        return Err(NameTaken);
      }
      users := users + [User(name, role, true, 0, None, 0)];
      return Ok(|users| - 1);
    }

    /** The first start creates an administrator when an initial password is configured and there is no
        account at all. */
    method BootstrapAdmin(name: string, configured: bool) returns (created: bool)
      modifies this`users
      ensures users == Apply(config, old(users), Op.Bootstrap(name, configured))
      ensures created <==> configured && old(users) == []
      ensures users == if created then [User(name, "admin", true, 0, None, 0)] else old(users)
    {
      if !configured {
        return false;
      }
      if |users| > 0 {
        return false;
      }
      users := [User(name, ADMIN, true, 0, None, 0)];
      return true;
    }

    /** An error undoes the changes made before it. */
    method UpdateUser(u: nat, actor: Option<nat>, change: Change) returns (error: Option<AccountError>)
      requires u < |users|
      modifies this`users
      ensures users == Apply(config, old(users), Op.Update(u, actor, change))
      ensures error.Some? <==> Updated(old(users), u, actor, change).Err?
      ensures error.Some? ==> users == old(users) && Updated(old(users), u, actor, change).error == error.value
      ensures error == FirstObjection(old(users), u, actor, change)
      ensures error.None? ==>
        && |users| == |old(users)| && users == old(users)[u := users[u]]
        && Changed(old(users)[u], change, users[u])
    {
      UpdatedMeans(users, u, actor, change);
      var before := users;
      error := ChangeRole(u, actor, change.role);
      if error.None? {
        error := ChangeActive(u, actor, change.active);
      }
      if error.None? && change.password.Some? {
        if change.password.value {
          users := users[u := users[u].(version := users[u].version + 1, failed := 0, lockedUntil := None)];
        } else {
          error := Some(WeakPassword);
        }
      }
      if error.Some? {
        users := before;
      }
    }

    method ChangeRole(u: nat, actor: Option<nat>, role: Option<string>) returns (error: Option<AccountError>)
      requires u < |users|
      modifies this`users
      ensures WithRole(old(users), u, actor, role) == if error.Some? then Err(error.value) else Ok(users)
      ensures |users| == |old(users)|
    {
      if role.None? || role.value == users[u].role {
        return None;
      }
      if role.value !in ROLES {
        return Some(UnknownRole);
      }
      if actor == Some(u) {
        return Some(OwnRole);
      }
      if !AdminRemains(users, u, role, None) {
        return Some(LastAdmin);
      }
      users := users[u := users[u].(role := role.value, version := users[u].version + 1)];
      return None;
    }

    method ChangeActive(u: nat, actor: Option<nat>, active: Option<bool>) returns (error: Option<AccountError>)
      requires u < |users|
      modifies this`users
      ensures WithActive(old(users), u, actor, active) == if error.Some? then Err(error.value) else Ok(users)
      ensures |users| == |old(users)|
    {
      if active.None? || active.value == users[u].active {
        return None;
      }
      if actor == Some(u) && !active.value {
        return Some(OwnDeactivation);
      }
      if !active.value && !AdminRemains(users, u, None, Some(false)) {
        return Some(LastAdmin);
      }
      users := users[u := users[u].(active := active.value, version := users[u].version + 1)];
      return None;
    }
  }

  // ---- runs ----

  datatype Op =
    | Login(name: string, matches: bool, now: int)
    | Logout(user: nat)
    | ChangePassword(user: nat, matches: bool, acceptable: bool, same: bool)
    | CreateUser(name: string, wellFormed: bool, role: string, acceptable: bool)
    | Bootstrap(name: string, configured: bool)
    | Update(user: nat, actor: Option<nat>, change: Change)

  /** One committed call; a call that fails or names no account changes nothing but, for a refused
      login, the failure count. */
  function Apply(cfg: Config, users: Users, op: Op): Users {
    match op
    case Login(name, matches, now) =>
      var u := Find(users, name);
      if u.None? then users else users[u.value := Attempted(users[u.value], matches, now, cfg)]
    case Logout(u) => if u < |users| then users[u := users[u].(version := users[u].version + 1)] else users
    case ChangePassword(u, matches, acceptable, same) =>
      if u >= |users| then users else OrElse(PasswordChanged(users, u, matches, acceptable, same), users)
    case CreateUser(name, wellFormed, role, acceptable) =>
      OrElse(Created(users, name, wellFormed, role, acceptable), users)
    case Bootstrap(name, configured) =>
      if configured && users == [] then [User(name, ADMIN, true, 0, None, 0)] else users
    case Update(u, actor, change) => if u >= |users| then users else OrElse(Updated(users, u, actor, change), users)
  }

  function OrElse(r: Result<Users, AccountError>, users: Users): Users {
    if r.Ok? then r.value else users
  }

  function Run(cfg: Config, users: Users, ops: seq<Op>): Users
    decreases |ops|
  {
    if ops == [] then users else Run(cfg, Apply(cfg, users, ops[0]), ops[1..])
  }

  // ---- lockout ----

  /** The failure count at which an account locks; a setting below one locks at the first failure. */
  function Threshold(cfg: Config): nat {
    if cfg.maxFailed < 1 then 1 else cfg.maxFailed
  }

  ghost predicate FailuresBelow(cfg: Config, users: Users) {
    forall u <- users :: u.failed < Threshold(cfg)
  }

  predicate TargetsLogin(users: Users, op: Op, x: nat) {
    op.Login? && Find(users, op.name) == Some(x)
  }

  /** A login on account `x` that is refused although the account is not locked. */
  predicate Fails(users: Users, op: Op, x: nat)
    requires x < |users|
  {
    TargetsLogin(users, op, x)
    && !(users[x].lockedUntil.Some? && users[x].lockedUntil.value > op.now)
    && (!users[x].active || !op.matches)
  }

  /** A successful login on `x`, or a reset of its password by an administrator. */
  predicate Clears(users: Users, op: Op, x: nat)
    requires x < |users|
  {
    || (TargetsLogin(users, op, x)
        && !(users[x].lockedUntil.Some? && users[x].lockedUntil.value > op.now)
        && users[x].active && op.matches)
    || (op.Update? && op.user == x && op.change.password == Some(true) && Updated(users, x, op.actor, op.change).Ok?)
  }

  function FailureCount(cfg: Config, users: Users, ops: seq<Op>, x: nat): nat
    requires x < |users|
    decreases |ops|
  {
    if ops == [] then 0
    else
      ApplyKeepsAccounts(cfg, users, ops[0], x);
      (if Fails(users, ops[0], x) then 1 else 0) + FailureCount(cfg, Apply(cfg, users, ops[0]), ops[1..], x)
  }

  /** All logins on `x` happen in the half-open interval, and nothing clears its failures. */
  ghost predicate QuietWithin(cfg: Config, users: Users, ops: seq<Op>, x: nat, start: int)
    requires x < |users|
    decreases |ops|
  {
    ops == [] ||
    (&& (TargetsLogin(users, ops[0], x) ==> start <= ops[0].now < start + cfg.lockMinutes * 60_000_000)
     && !Clears(users, ops[0], x)
     && (ApplyKeepsAccounts(cfg, users, ops[0], x); QuietWithin(cfg, Apply(cfg, users, ops[0]), ops[1..], x, start)))
  }

  lemma {:induction false} UpdatedKeeps(users: Users, u: nat, actor: Option<nat>, change: Change, x: nat)
    requires u < |users| && x < |users| && Updated(users, u, actor, change).Ok?
    ensures var out := Updated(users, u, actor, change).value;
      && |out| == |users| && out[x].username == users[x].username
      && out[x].version >= users[x].version
      && (u != x ==> out[x] == users[x])
      && (out[x].version == users[x].version ==> out[x] == users[x])
      && (change.password != Some(true) ==>
           out[x].failed == users[x].failed && out[x].lockedUntil == users[x].lockedUntil)
      && (change.password == Some(true) && u == x ==> out[x].failed == 0)
  {
  }

  /** No call removes or renames an account or lowers its token version. */
  lemma {:induction false} ApplyKeepsAccounts(cfg: Config, users: Users, op: Op, x: nat)
    requires x < |users|
    ensures var out := Apply(cfg, users, op);
      x < |out| && |users| <= |out| && out[x].username == users[x].username && out[x].version >= users[x].version
  {
    if op.Update? && op.user < |users| && Updated(users, op.user, op.actor, op.change).Ok? {
      UpdatedKeeps(users, op.user, op.actor, op.change, x);
    }
  }

  lemma {:induction false} ApplyKeepsFailuresBelow(cfg: Config, users: Users, op: Op)
    requires FailuresBelow(cfg, users)
    ensures FailuresBelow(cfg, Apply(cfg, users, op))
  {
    var out := Apply(cfg, users, op);
    forall u | u in out ensures u.failed < Threshold(cfg) {
      var i :| 0 <= i < |out| && out[i] == u;
      if i < |users| {
        assert users[i] in users;
        if op.Update? && op.user < |users| && Updated(users, op.user, op.actor, op.change).Ok? {
          UpdatedKeeps(users, op.user, op.actor, op.change, i);
        }
      }
    }
  }

  /** Between calls, in every reachable state, no account has as many recorded failures as lock it. */
  lemma {:induction false} FailuresStayBelow(cfg: Config, users: Users, ops: seq<Op>)
    requires FailuresBelow(cfg, users)
    ensures FailuresBelow(cfg, Run(cfg, users, ops))
    decreases |ops|
  {
    if ops != [] {
      ApplyKeepsFailuresBelow(cfg, users, ops[0]);
      FailuresStayBelow(cfg, Apply(cfg, users, ops[0]), ops[1..]);
    }
  }

  /** What one call does to the failures and the lock of `x` when it clears nothing. */
  lemma {:induction false} OneQuietCall(cfg: Config, users: Users, op: Op, x: nat)
    requires x < |users| && !Clears(users, op, x)
    ensures var out := Apply(cfg, users, op);
      && x < |out|
      && (!Fails(users, op, x) ==> out[x].failed == users[x].failed && out[x].lockedUntil == users[x].lockedUntil)
      && (Fails(users, op, x) ==> out[x] == Attempted(users[x], op.matches, op.now, cfg))
  {
    if op.Update? && op.user < |users| && Updated(users, op.user, op.actor, op.change).Ok? {
      UpdatedKeeps(users, op.user, op.actor, op.change, x);
    }
  }

  /** From any state, whatever else happens: within one lock length without a success or a reset, the
      attempts that get past the lock and fail are no more than the threshold less those already counted,
      and none at all once the account is locked to the end of the interval. */
  lemma {:induction false} LockoutBound(cfg: Config, users: Users, ops: seq<Op>, x: nat, start: int)
    requires x < |users| && users[x].failed < Threshold(cfg)
    requires QuietWithin(cfg, users, ops, x, start)
    ensures FailureCount(cfg, users, ops, x) <= Threshold(cfg) - users[x].failed
    ensures users[x].lockedUntil.Some? && users[x].lockedUntil.value >= start + cfg.lockMinutes * 60_000_000 ==>
      FailureCount(cfg, users, ops, x) == 0
    decreases |ops|
  {
    if ops != [] {
      OneQuietCall(cfg, users, ops[0], x);
      ApplyKeepsAccounts(cfg, users, ops[0], x);
      LockoutBound(cfg, Apply(cfg, users, ops[0]), ops[1..], x, start);
    }
  }

  // ---- token versions ----

  /** A committed logout, password change or reset, role change, deactivation or reactivation of `x`. */
  predicate Revokes(users: Users, op: Op, x: nat)
    requires x < |users|
  {
    match op
    case Logout(u) => u == x
    case ChangePassword(u, matches, acceptable, same) => u == x && matches && acceptable && !same
    case Update(u, actor, change) =>
      && u == x && Updated(users, u, actor, change).Ok?
      && (|| (change.role.Some? && change.role.value != users[x].role)
          || (change.active.Some? && change.active.value != users[x].active)
          || change.password.Some?)
    case _ => false
  }

  lemma {:induction false} VersionMoves(cfg: Config, users: Users, op: Op, x: nat)
    requires x < |users|
    ensures var out := Apply(cfg, users, op);
      && x < |out|
      && (Revokes(users, op, x) ==> out[x].version > users[x].version)
      && (!Revokes(users, op, x) ==> out[x].version == users[x].version && out[x].active == users[x].active)
  {
    if op.Update? && op.user < |users| && Updated(users, op.user, op.actor, op.change).Ok? {
      UpdatedKeeps(users, op.user, op.actor, op.change, x);
    }
  }

  /** Whether some call of the run revokes the tokens of `x`. */
  predicate SomeRevocation(cfg: Config, users: Users, ops: seq<Op>, x: nat)
    requires x < |users|
    decreases |ops|
  {
    ops != [] &&
    (Revokes(users, ops[0], x)
     || (ApplyKeepsAccounts(cfg, users, ops[0], x); SomeRevocation(cfg, Apply(cfg, users, ops[0]), ops[1..], x)))
  }

  /** Over any run versions never fall, and a token that was valid at the start is valid at the end
      exactly when no call of the run revoked it. */
  lemma {:induction false} TokenLivesUntilRevoked(cfg: Config, users: Users, ops: seq<Op>, x: nat)
    requires x < |users|
    ensures var out := Run(cfg, users, ops);
      && x < |out| && out[x].version >= users[x].version
      && (SomeRevocation(cfg, users, ops, x) ==> out[x].version > users[x].version)
      && (TokenValid(users, IssueToken(users, x)) ==>
           (TokenValid(out, IssueToken(users, x)) <==> !SomeRevocation(cfg, users, ops, x)))
    decreases |ops|
  {
    if ops != [] {
      VersionMoves(cfg, users, ops[0], x);
      ApplyKeepsAccounts(cfg, users, ops[0], x);
      TokenLivesUntilRevoked(cfg, Apply(cfg, users, ops[0]), ops[1..], x);
    }
  }

  /** No token issued before a revocation, at whatever earlier point, is ever valid after it. */
  lemma {:induction false} RevokedForever(cfg: Config, users: Users, before: seq<Op>, op: Op, after: seq<Op>, x: nat)
    requires x < |users|
    ensures var atOp := Run(cfg, users, before);
      x < |atOp| && (Revokes(atOp, op, x) ==>
        !TokenValid(Run(cfg, Apply(cfg, atOp, op), after), IssueToken(users, x)))
  {
    TokenLivesUntilRevoked(cfg, users, before, x);
    var atOp := Run(cfg, users, before);
    VersionMoves(cfg, atOp, op, x);
    TokenLivesUntilRevoked(cfg, Apply(cfg, atOp, op), after, x);
  }

  // ---- the last administrator ----

  predicate IsActiveAdmin(u: User) {
    u.role == ADMIN && u.active
  }

  ghost predicate HasAdmin(users: Users) {
    exists i :: 0 <= i < |users| && IsActiveAdmin(users[i])
  }

  lemma {:induction false} RoleKeepsAdmin(users: Users, u: nat, actor: Option<nat>, role: Option<string>)
    requires u < |users| && HasAdmin(users) && WithRole(users, u, actor, role).Ok?
    ensures HasAdmin(WithRole(users, u, actor, role).value)
  {
    var out := WithRole(users, u, actor, role).value;
    var i :| 0 <= i < |users| && IsActiveAdmin(users[i]);
    if i != u || out == users {
      assert IsActiveAdmin(out[i]);
    } else {
      var v :| 0 <= v < |users| && v != u && users[v].role == ADMIN && users[v].active;
      assert IsActiveAdmin(out[v]);
    }
  }

  lemma {:induction false} ActiveKeepsAdmin(users: Users, u: nat, actor: Option<nat>, active: Option<bool>)
    requires u < |users| && HasAdmin(users) && WithActive(users, u, actor, active).Ok?
    ensures HasAdmin(WithActive(users, u, actor, active).value)
  {
    var out := WithActive(users, u, actor, active).value;
    var i :| 0 <= i < |users| && IsActiveAdmin(users[i]);
    if i != u || out == users {
      assert IsActiveAdmin(out[i]);
    } else {
      assert AnotherAdmin(users, u);
      var v :| 0 <= v < |users| && v != u && users[v].role == ADMIN && users[v].active;
      assert IsActiveAdmin(out[v]);
    }
  }

  lemma {:induction false} UpdatedKeepsAdmin(users: Users, u: nat, actor: Option<nat>, change: Change)
    requires u < |users| && HasAdmin(users) && Updated(users, u, actor, change).Ok?
    ensures HasAdmin(Updated(users, u, actor, change).value)
  {
    RoleKeepsAdmin(users, u, actor, change.role);
    var r1 := WithRole(users, u, actor, change.role).value;
    ActiveKeepsAdmin(r1, u, actor, change.active);
    var r2 := WithActive(r1, u, actor, change.active).value;
    var i :| 0 <= i < |r2| && IsActiveAdmin(r2[i]);
    assert IsActiveAdmin(Updated(users, u, actor, change).value[i]);
  }

  /** Once there is an active administrator, no sequence of calls leaves none. */
  lemma {:induction false} AnAdminAlwaysRemains(cfg: Config, users: Users, ops: seq<Op>)
    requires HasAdmin(users)
    ensures HasAdmin(Run(cfg, users, ops))
    decreases |ops|
  {
    if ops != [] {
      var op := ops[0];
      var out := Apply(cfg, users, op);
      if op.Update? && op.user < |users| && Updated(users, op.user, op.actor, op.change).Ok? {
        UpdatedKeepsAdmin(users, op.user, op.actor, op.change);
      } else {
        var i :| 0 <= i < |users| && IsActiveAdmin(users[i]);
        assert IsActiveAdmin(out[i]);
      }
      AnAdminAlwaysRemains(cfg, out, ops[1..]);
    }
  }
}
