/** The authentication and invite state machine of the backend (server.js):
    two datasets (`mainPool`, `demoPool`), each with a users table and an
    in-memory invite token, and the handlers that read and change them.

    The SQL engine is modelled as exact string equality on columns, rows in
    insertion order, `LIMIT 1` and "the first matching row" taken as the
    earliest inserted row, and an `UPDATE`'s affected-row count as the number
    of rows its `WHERE` matches. Generated tokens are parameters. */
module Auth {
  import opened Wrappers
  import opened Strings

  datatype Pool = MainPool | DemoPool

  /** The dataset selector value naming each pool. */
  function PoolName(p: Pool): string {
    match p
    case MainPool => "mainPool"
    case DemoPool => "demoPool"
  }

  function Other(p: Pool): Pool {
    if p == MainPool then DemoPool else MainPool
  }

  /** `getDatabasePool`: exactly the two pool names resolve, each to its own
      pool; anything else, absent included, throws (None). */
  function GetDatabasePool(dbPool: Option<string>): (r: Option<Pool>)
    ensures r.Some? ==> dbPool == Some(PoolName(r.value))
    ensures r.None? ==> forall p :: dbPool != Some(PoolName(p))
  {
    if dbPool == Some("mainPool") then Some(MainPool)
    else if dbPool == Some("demoPool") then Some(DemoPool)
    else None
  }

  /** JavaScript truthiness of a request field that is a string or absent. */
  predicate Present(x: Option<string>) {
    x.Some? && x.value != ""
  }

  datatype User = User(id: nat, displayname: string, username: string, password: string, accesstoken: string)

  /** A users table: its rows in insertion order and the next
      auto-increment id. */
  datatype Table = Table(rows: seq<User>, nextId: nat)

  /** Auto-increment ids grow with insertion order and stay below the next
      id, so the first row is the one with the lowest id. */
  ghost predicate IdsIncreasing(t: Table) {
    && (forall i, j :: 0 <= i < j < |t.rows| ==> t.rows[i].id < t.rows[j].id)
    && (forall i :: 0 <= i < |t.rows| ==> t.rows[i].id < t.nextId)
  }

  /** `INSERT INTO users (displayname, username, password, accesstoken)`. */
  function Insert(t: Table, displayname: string, username: string, password: string, accesstoken: string): (t': Table)
    ensures t'.rows == t.rows + [User(t.nextId, displayname, username, password, accesstoken)]
    ensures t'.nextId == t.nextId + 1
    ensures IdsIncreasing(t) ==> IdsIncreasing(t')
  {
    Table(t.rows + [User(t.nextId, displayname, username, password, accesstoken)], t.nextId + 1)
  }

  /** The index of the first row satisfying `f`, None when no row does. */
  function FirstIndex(rows: seq<User>, f: User -> bool): (r: Option<nat>)
    ensures r.Some? ==> r.value < |rows| && f(rows[r.value])
    ensures r.Some? ==> forall j :: 0 <= j < r.value ==> !f(rows[j])
    ensures r.None? <==> forall j :: 0 <= j < |rows| ==> !f(rows[j])
  {
    if rows == [] then None
    else if f(rows[0]) then Some(0)
    else match FirstIndex(rows[1..], f)
      case None => None
      case Some(i) => Some(i + 1)
  }

  predicate HasCredential(u: User, username: string, accesstoken: string) {
    u.username == username && u.accesstoken == accesstoken
  }

  predicate HasLogin(u: User, username: string, password: string) {
    u.username == username && u.password == password
  }

  /** `SELECT ... FROM users WHERE username = ? AND accesstoken = ?` */
  function CredentialIndex(rows: seq<User>, username: string, accesstoken: string): Option<nat> {
    FirstIndex(rows, u => HasCredential(u, username, accesstoken))
  }

  /** `SELECT ... FROM users WHERE username = ? AND password = ?` */
  function LoginIndex(rows: seq<User>, username: string, password: string): Option<nat> {
    FirstIndex(rows, u => HasLogin(u, username, password))
  }

  datatype Validation = Authenticated(displayname: string) | Rejected(status: int, error: string)

  /** `validateUser`: `pool` is the users table, None when no pool is given.
      A missing value gives 400; a stored row with exactly this username and
      access token gives that row's display name; otherwise 401. */
  function ValidateUser(username: string, accesstoken: string, pool: Option<seq<User>>): (v: Validation)
    ensures v.Rejected? ==> v.status == 400 || v.status == 401
    ensures v.Rejected? && v.status == 400 <==> username == "" || accesstoken == "" || pool.None?
    ensures v.Authenticated? <==>
      && username != "" && accesstoken != "" && pool.Some?
      && exists i :: 0 <= i < |pool.value| && HasCredential(pool.value[i], username, accesstoken)
    ensures v.Authenticated? ==>
      exists i :: 0 <= i < |pool.value| && HasCredential(pool.value[i], username, accesstoken)
        && pool.value[i].displayname == v.displayname
        && forall j :: 0 <= j < i ==> !HasCredential(pool.value[j], username, accesstoken)
  {
    if username == "" || accesstoken == "" || pool.None? then Rejected(400, "Missing parameters")
    else match CredentialIndex(pool.value, username, accesstoken)
      case None => Rejected(401, "Unauthorized: Incorrect User Data")
      case Some(i) => Authenticated(pool.value[i].displayname)
  }

  /** `UPDATE users SET ... WHERE username = ?`, the change being `g`. */
  function Update(rows: seq<User>, username: string, g: User -> User): (r: seq<User>)
    ensures |r| == |rows|
    ensures forall i :: 0 <= i < |rows| ==> r[i] == if rows[i].username == username then g(rows[i]) else rows[i]
  {
    if rows == [] then []
    else [if rows[0].username == username then g(rows[0]) else rows[0]] + Update(rows[1..], username, g)
  }

  function SetPassword(rows: seq<User>, username: string, password: string): seq<User> {
    Update(rows, username, (u: User) => u.(password := password))
  }

  function SetAccessToken(rows: seq<User>, username: string, accesstoken: string): seq<User> {
    Update(rows, username, (u: User) => u.(accesstoken := accesstoken))
  }

  /** The two updates of `/change-password`: the password, then the access
      token, of every row of `username`. */
  function Rotate(rows: seq<User>, username: string, password: string, accesstoken: string): seq<User> {
    SetAccessToken(SetPassword(rows, username, password), username, accesstoken)
  }

  /** The affected-row count of an `UPDATE ... WHERE username = ?`. */
  function CountUsername(rows: seq<User>, username: string): (n: nat)
    ensures n <= |rows|
    ensures n > 0 <==> exists i :: 0 <= i < |rows| && rows[i].username == username
  {
    if rows == [] then 0
    else (if rows[0].username == username then 1 else 0) + CountUsername(rows[1..], username)
  }

  /** The admin test: the first row's username equals `username` up to case. */
  predicate IsAdmin(rows: seq<User>, username: string) {
    |rows| > 0 && ToLower(rows[0].username) == ToLower(username)
  }

  /** The link `generateUniqueId` returns. */
  function InviteLink(inviteURL: string, token: string, p: Pool): string {
    inviteURL + "?" + InviteQuery(token, p)
  }

  /** `authorizationHeader.split(' ')[1]`; None stands for `undefined`. */
  function BearerToken(header: string): (r: Option<string>)
    ensures r.None? <==> ' ' !in header
    ensures r.Some? ==> ' ' !in r.value
  {
    var parts := Split(header, ' ');
    if |parts| > 1 then Some(parts[1]) else None
  }

  /** The invited branch of signup admits the caller when the pool's invite
      token is set and the supplied token equals it. */
  predicate InviteAccepts(invite: Option<string>, accesstoken: Option<string>) {
    Present(invite) && accesstoken == invite
  }

  /** `getDatabasePool`, or `trim` of an absent username or password, throws. */
  predicate SignupThrows(username: Option<string>, password: Option<string>, dbPool: Option<string>) {
    GetDatabasePool(dbPool).None? || username.None? || password.None?
  }

  /** The display name is missing, or the username or password trims to empty. */
  predicate SignupIncomplete(displayname: Option<string>, username: string, password: string) {
    !Present(displayname) || Trim(username) == "" || Trim(password) == ""
  }

  /** Signup inserts into an empty dataset whatever token is supplied, and
      into a non-empty one only with the dataset's invite token. */
  predicate SignupAdmits(rows: seq<User>, invite: Option<string>, accesstoken: Option<string>) {
    rows == [] || InviteAccepts(invite, accesstoken)
  }

  /** The error of a refused signup: no invite token, or a different one. */
  function SignupRefusal(invite: Option<string>): string {
    if Present(invite) then "Access Token inválido!" else "Invalid or missing pool!"
  }

  datatype Body =
    | Message(text: string)
    | Error(text: string)
    | Profile(id: nat, displayname: string, accesstoken: string)
    | DisplayName(name: string)
    | Link(inviteLink: string)
    | AdminValidated
    | PasswordChanged(newAccessToken: string)

  /** What a handler sends; Unanswered when it throws outside its `try`,
      so that no response is sent. */
  datatype Response = Reply(status: int, body: Body) | Unanswered

  const InternalError: Response := Reply(500, Error("Internal Server Error"))

  class AuthServer {
    /** The configured `INVITE_URL`, as it renders inside a template string. */
    const inviteURL: string
    var main: Table
    var demo: Table
    /** `mainInviteToken`, `demoInviteToken`: None while `null`. */
    var mainInvite: Option<string>
    var demoInvite: Option<string>

    function TableOf(p: Pool): Table
      reads this
    {
      if p == MainPool then main else demo
    }

    function InviteOf(p: Pool): Option<string>
      reads this
    {
      if p == MainPool then mainInvite else demoInvite
    }

    ghost predicate Valid()
      reads this
    {
      IdsIncreasing(main) && IdsIncreasing(demo)
    }

    /** The process starts with the tables as stored and no invite tokens. */
    constructor (inviteURL: string, main: Table, demo: Table)
      requires IdsIncreasing(main) && IdsIncreasing(demo)
      ensures Valid()
      ensures this.inviteURL == inviteURL && this.main == main && this.demo == demo
      ensures mainInvite == None && demoInvite == None
    {
      this.inviteURL := inviteURL;
      this.main := main;
      this.demo := demo;
      mainInvite := None;
      demoInvite := None;
    }

    /** Replaces the users table of `p`. */
    method SetTable(p: Pool, t: Table)
      modifies this
      ensures TableOf(p) == t && TableOf(Other(p)) == old(TableOf(Other(p)))
      ensures mainInvite == old(mainInvite) && demoInvite == old(demoInvite)
    {
      if p == MainPool { main := t; } else { demo := t; }
    }

    /** The two `UPDATE`s of `/change-password` on pool `p`. */
    method RotateCredentials(p: Pool, username: string, password: string, accesstoken: string)
      requires Valid()
      modifies this
      ensures Valid()
      ensures TableOf(p) == Table(Rotate(old(TableOf(p)).rows, username, password, accesstoken), old(TableOf(p)).nextId)
      ensures TableOf(Other(p)) == old(TableOf(Other(p)))
      ensures mainInvite == old(mainInvite) && demoInvite == old(demoInvite)
    {
      var t := TableOf(p);
      var rows := Rotate(t.rows, username, password, accesstoken);
      RotatedRows(t.rows, username, password, accesstoken);
      UpdatePreservesIds(t, rows);
      SetTable(p, Table(rows, t.nextId));
    }

    /** `generateUniqueId`: stores `token` as the invite token of the named
        pool only, and returns the link; an invalid pool throws (None) before
        any token is stored. */
    method GenerateUniqueId(dbPool: Option<string>, token: string) returns (link: Option<string>)
      modifies this
      ensures main == old(main) && demo == old(demo)
      ensures link.Some? <==> GetDatabasePool(dbPool).Some?
      ensures link.Some? ==> var p := GetDatabasePool(dbPool).value;
        && link.value == InviteLink(inviteURL, token, p)
        && InviteOf(p) == Some(token) && InviteOf(Other(p)) == old(InviteOf(Other(p)))
      ensures link.None? ==> mainInvite == old(mainInvite) && demoInvite == old(demoInvite)
    {
      if dbPool == Some("mainPool") {
        mainInvite := Some(token);
      } else if dbPool == Some("demoPool") {
        demoInvite := Some(token);
      } else {
        return None;
      }
      link := Some(InviteLink(inviteURL, token, GetDatabasePool(dbPool).value));
    }

    /** `/auth/signup`. The invite tokens never change, so an accepted invite
        token stays usable. */
    method Signup(displayname: Option<string>, username: Option<string>, password: Option<string>,
                  accesstoken: Option<string>, dbPool: Option<string>, newAccessToken: string)
      returns (r: Response)
      requires Valid()
      modifies this
      ensures Valid()
      ensures mainInvite == old(mainInvite) && demoInvite == old(demoInvite)
      ensures r.Reply?
      ensures r.status != 200 ==> main == old(main) && demo == old(demo)
      // getDatabasePool or `trim` of an absent username or password throws
      ensures SignupThrows(username, password, dbPool) ==> r == InternalError
      ensures !SignupThrows(username, password, dbPool) && SignupIncomplete(displayname, username.value, password.value) ==>
        r == Reply(400, Error("Display name, username and password are required"))
      ensures !SignupThrows(username, password, dbPool) && !SignupIncomplete(displayname, username.value, password.value) ==>
        var p := GetDatabasePool(dbPool).value;
        && (r.status == 200 <==> SignupAdmits(old(TableOf(p)).rows, old(InviteOf(p)), accesstoken))
        && (r.status == 200 ==>
              && r.body == Message("User registered successfully")
              && TableOf(p) == Insert(old(TableOf(p)), displayname.value, Trim(username.value), Trim(password.value), newAccessToken)
              && TableOf(Other(p)) == old(TableOf(Other(p))))
        && (r.status != 200 ==> r == Reply(401, Error(SignupRefusal(old(InviteOf(p))))))
    {
      var pool := GetDatabasePool(dbPool);
      if pool.None? || username.None? || password.None? {
        return InternalError;
      }
      var p := pool.value;
      var name := Trim(username.value);
      var secret := Trim(password.value);
      if !Present(displayname) || name == "" || secret == "" {
        return Reply(400, Error("Display name, username and password are required"));
      }
      if TableOf(p).rows != [] {
        var token := InviteOf(p);
        if !Present(token) {
          return Reply(401, Error(SignupRefusal(token)));
        }
        if !Present(accesstoken) || accesstoken != token {
          return Reply(401, Error(SignupRefusal(token)));
        }
      }
      SetTable(p, Insert(TableOf(p), displayname.value, name, secret, newAccessToken));
      r := Reply(200, Message("User registered successfully"));
    }

    /** `/generate-invite-link`: only a validated caller who is the admin of
        the pool gets a new invite token stored and its link back. */
    method GenerateInviteLink(username: Option<string>, authorization: Option<string>,
                              dbPool: Option<string>, newInviteToken: string)
      returns (r: Response)
      requires Valid()
      modifies this
      ensures Valid()
      ensures main == old(main) && demo == old(demo)
      ensures r.Reply?
      ensures r.status != 200 ==> mainInvite == old(mainInvite) && demoInvite == old(demoInvite)
      ensures !Present(username) || !Present(authorization) || !Present(dbPool) ==>
        r == Reply(400, Error("Username, access token, and database pool are required"))
      ensures Present(username) && Present(authorization) && Present(dbPool) &&
              (GetDatabasePool(dbPool).None? || BearerToken(authorization.value).None?) ==>
        r == InternalError
      ensures Present(username) && Present(authorization) && GetDatabasePool(dbPool).Some? &&
              BearerToken(authorization.value).Some? ==>
        var p := GetDatabasePool(dbPool).value;
        var name := Trim(username.value);
        match ValidateUser(name, Trim(BearerToken(authorization.value).value), Some(TableOf(p).rows))
        case Rejected(status, error) => r == Reply(status, Error(error))
        case Authenticated(_) =>
          if IsAdmin(TableOf(p).rows, name) then
            && r == Reply(200, Link(InviteLink(inviteURL, newInviteToken, p)))
            && InviteOf(p) == Some(newInviteToken)
            && InviteOf(Other(p)) == old(InviteOf(Other(p)))
          else r == Reply(403, Error("You are not an admin"))
    {
      if !Present(username) || !Present(authorization) || !Present(dbPool) {
        return Reply(400, Error("Username, access token, and database pool are required"));
      }
      var pool := GetDatabasePool(dbPool);
      var token := BearerToken(authorization.value);
      if pool.None? || token.None? {
        return InternalError;
      }
      var p := pool.value;
      var name := Trim(username.value);
      var v := ValidateUser(name, Trim(token.value), Some(TableOf(p).rows));
      if v.Rejected? {
        return Reply(v.status, Error(v.error));
      }
      if IsAdmin(TableOf(p).rows, name) {
        var link := GenerateUniqueId(dbPool, newInviteToken);
        r := Reply(200, Link(link.value));
      } else {
        r := Reply(403, Error("You are not an admin"));
      }
    }

    /** `/auth/login`: judged on the trimmed username and password; the first
        matching row's id, display name and existing access token come back
        and nothing changes. */
    method Login(username: Option<string>, password: Option<string>, dbPool: Option<string>)
      returns (r: Response)
      ensures !Present(username) || !Present(password) || !Present(dbPool) ==>
        r == Reply(400, Error("Username, password, and dbPool are required"))
      ensures Present(username) && Present(password) && Present(dbPool) && GetDatabasePool(dbPool).None? ==>
        r == InternalError
      ensures Present(username) && Present(password) && GetDatabasePool(dbPool).Some? ==>
        var rows := TableOf(GetDatabasePool(dbPool).value).rows;
        var name := Trim(username.value);
        var secret := Trim(password.value);
        && (r.Reply? && r.status == 200 <==> exists i :: 0 <= i < |rows| && HasLogin(rows[i], name, secret))
        && match LoginIndex(rows, name, secret)
           case None => r == Reply(401, Error("Utilizador ou senha inválidos"))
           case Some(i) => r == Reply(200, Profile(rows[i].id, rows[i].displayname, rows[i].accesstoken))
    {
      if !Present(username) || !Present(password) || !Present(dbPool) {
        return Reply(400, Error("Username, password, and dbPool are required"));
      }
      var pool := GetDatabasePool(dbPool);
      if pool.None? {
        return InternalError;
      }
      var rows := TableOf(pool.value).rows;
      var found := LoginIndex(rows, Trim(username.value), Trim(password.value));
      if found.None? {
        return Reply(401, Error("Utilizador ou senha inválidos"));
      }
      var user := rows[found.value];
      r := Reply(200, Profile(user.id, user.displayname, user.accesstoken));
    }

    /** `/auth/validate`: the display name for a matching username and access
        token, or the status and error of `validateUser`. */
    method AuthValidate(username: Option<string>, accesstoken: Option<string>, dbPool: Option<string>)
      returns (r: Response)
      ensures !Present(username) || !Present(accesstoken) || !Present(dbPool) ==>
        r == Reply(400, Error("Username, access token, and dbPool are required"))
      ensures Present(username) && Present(accesstoken) && Present(dbPool) && GetDatabasePool(dbPool).None? ==>
        r == InternalError
      ensures Present(username) && Present(accesstoken) && GetDatabasePool(dbPool).Some? ==>
        var rows := TableOf(GetDatabasePool(dbPool).value).rows;
        var name := Trim(username.value);
        var token := Trim(accesstoken.value);
        && (r.Reply? && r.status == 200 <==>
              name != "" && token != "" && exists i :: 0 <= i < |rows| && HasCredential(rows[i], name, token))
        && match ValidateUser(name, token, Some(rows))
           case Authenticated(displayname) => r == Reply(200, DisplayName(displayname))
           case Rejected(status, error) => r == Reply(status, Error(error))
    {
      if !Present(username) || !Present(accesstoken) || !Present(dbPool) {
        return Reply(400, Error("Username, access token, and dbPool are required"));
      }
      var pool := GetDatabasePool(dbPool);
      if pool.None? {
        return InternalError;
      }
      var v := ValidateUser(Trim(username.value), Trim(accesstoken.value), Some(TableOf(pool.value).rows));
      if v.Authenticated? {
        r := Reply(200, DisplayName(v.displayname));
      } else {
        r := Reply(v.status, Error(v.error));
      }
    }

    /** `/check-admin`: 200 only for a validated caller who is the admin of the
        pool; a header without a space throws outside the `try`. */
    method CheckAdmin(username: Option<string>, authorization: Option<string>, dbPool: Option<string>)
      returns (r: Response)
      ensures !Present(username) || !Present(authorization) ==>
        r == Reply(400, Error("Username and access token are required"))
      ensures Present(username) && Present(authorization) && BearerToken(authorization.value).None? ==>
        r == Unanswered
      ensures Present(username) && Present(authorization) && BearerToken(authorization.value).Some? &&
              GetDatabasePool(dbPool).None? ==>
        r == InternalError
      ensures Present(username) && Present(authorization) && BearerToken(authorization.value).Some? &&
              GetDatabasePool(dbPool).Some? ==>
        var rows := TableOf(GetDatabasePool(dbPool).value).rows;
        var name := Trim(username.value);
        match ValidateUser(name, Trim(BearerToken(authorization.value).value), Some(rows))
        case Rejected(status, error) => r == Reply(status, Error(error))
        case Authenticated(_) =>
          r == if IsAdmin(rows, name) then Reply(200, AdminValidated)
               else Reply(403, Error("You are not an admin"))
    {
      if !Present(username) || !Present(authorization) {
        return Reply(400, Error("Username and access token are required"));
      }
      var token := BearerToken(authorization.value);
      if token.None? {
        return Unanswered;
      }
      var pool := GetDatabasePool(dbPool);
      if pool.None? {
        return InternalError;
      }
      var rows := TableOf(pool.value).rows;
      var name := Trim(username.value);
      var v := ValidateUser(name, Trim(token.value), Some(rows));
      if v.Rejected? {
        return Reply(v.status, Error(v.error));
      }
      if IsAdmin(rows, name) {
        r := Reply(200, AdminValidated);
      } else {
        r := Reply(403, Error("You are not an admin"));
      }
    }

    /** `/change-password`: after validation every row with the username gets
        the trimmed new password and the new access token, which is returned.
        The "user not found" reply cannot happen here: a validated caller's
        row matches the update. */
    method ChangePassword(username: Option<string>, accesstoken: Option<string>, newPassword: Option<string>,
                          dbPool: Option<string>, newAccessToken: string)
      returns (r: Response)
      requires Valid()
      modifies this
      ensures Valid()
      ensures mainInvite == old(mainInvite) && demoInvite == old(demoInvite)
      ensures r.Reply? && r.status != 404
      ensures r.status != 200 ==> main == old(main) && demo == old(demo)
      ensures !Present(username) || !Present(accesstoken) || !Present(newPassword) || !Present(dbPool) ==>
        r == Reply(400, Error("Username, access token, and new password are required"))
      ensures Present(username) && Present(accesstoken) && Present(newPassword) && Present(dbPool) &&
              GetDatabasePool(dbPool).None? ==>
        r == InternalError
      ensures Present(username) && Present(accesstoken) && Present(newPassword) &&
              GetDatabasePool(dbPool).Some? ==>
        var p := GetDatabasePool(dbPool).value;
        var name := Trim(username.value);
        match ValidateUser(name, Trim(accesstoken.value), Some(old(TableOf(p)).rows))
        case Rejected(status, error) => r == Reply(status, Error(error))
        case Authenticated(_) =>
          && r == Reply(200, PasswordChanged(newAccessToken))
          && TableOf(p).nextId == old(TableOf(p)).nextId
          && TableOf(p).rows ==
               Rotate(old(TableOf(p)).rows, name, Trim(newPassword.value), newAccessToken)
          && TableOf(Other(p)) == old(TableOf(Other(p)))
    {
      if !Present(username) || !Present(accesstoken) || !Present(newPassword) || !Present(dbPool) {
        return Reply(400, Error("Username, access token, and new password are required"));
      }
      var name := Trim(username.value);
      var secret := Trim(newPassword.value);
      var token := Trim(accesstoken.value);
      var pool := GetDatabasePool(dbPool);
      if pool.None? {
        return InternalError;
      }
      var p := pool.value;
      var t := TableOf(p);
      var v := ValidateUser(name, token, Some(t.rows));
      if v.Rejected? {
        return Reply(v.status, Error(v.error));
      }
      ValidatedUserIsStored(name, token, t.rows);
      var affected := CountUsername(t.rows, name);
      if affected > 0 {
        RotateCredentials(p, name, secret, newAccessToken);
        r := Reply(200, PasswordChanged(newAccessToken));
      } else {
        // unreachable: the validated row has this username
        assert false;
        r := Reply(404, Error("User not found"));
      }
    }
  }

  /** A validated username names at least one stored row, so the password
      update of `/change-password` affects a row. */
  lemma ValidatedUserIsStored(username: string, accesstoken: string, rows: seq<User>)
    requires ValidateUser(username, accesstoken, Some(rows)).Authenticated?
    ensures CountUsername(rows, username) > 0
  {
  }

  /** Rows that keep their ids keep the table's id invariant. */
  lemma UpdatePreservesIds(t: Table, rows: seq<User>)
    requires IdsIncreasing(t)
    requires |rows| == |t.rows| && forall i :: 0 <= i < |rows| ==> rows[i].id == t.rows[i].id
    ensures IdsIncreasing(Table(rows, t.nextId))
  {
  }

  /** After `/change-password` has rotated the token of `username`, the old
      token no longer validates, the new one does, and the new password logs
      in and returns the new token. */
  lemma PasswordChangeRotatesToken(rows: seq<User>, username: string, password: string,
                                   oldToken: string, newToken: string)
    requires username != "" && oldToken != "" && newToken != "" && oldToken != newToken
    requires CountUsername(rows, username) > 0
    ensures var rows' := Rotate(rows, username, password, newToken);
      && ValidateUser(username, oldToken, Some(rows')) == Rejected(401, "Unauthorized: Incorrect User Data")
      && ValidateUser(username, newToken, Some(rows')).Authenticated?
      && LoginIndex(rows', username, password).Some?
      && rows'[LoginIndex(rows', username, password).value].accesstoken == newToken
  {
    RotatedRows(rows, username, password, newToken);
    var rows' := Rotate(rows, username, password, newToken);
    var k :| 0 <= k < |rows| && rows[k].username == username;
    RotatedTokenValidates(rows, username, password, newToken, k);
    RotatedPasswordLogsIn(rows, username, password, newToken, k);
    assert forall i :: 0 <= i < |rows'| ==> !HasCredential(rows'[i], username, oldToken);
  }

  lemma RotatedTokenValidates(rows: seq<User>, username: string, password: string, newToken: string, k: nat)
    requires username != "" && newToken != ""
    requires k < |rows| && rows[k].username == username
    ensures ValidateUser(username, newToken, Some(Rotate(rows, username, password, newToken))).Authenticated?
  {
    RotatedRows(rows, username, password, newToken);
    assert HasCredential(Rotate(rows, username, password, newToken)[k], username, newToken);
  }

  lemma RotatedPasswordLogsIn(rows: seq<User>, username: string, password: string, newToken: string, k: nat)
    requires k < |rows| && rows[k].username == username
    ensures var rows' := Rotate(rows, username, password, newToken);
      && LoginIndex(rows', username, password).Some?
      && rows'[LoginIndex(rows', username, password).value].accesstoken == newToken
  {
    RotatedRows(rows, username, password, newToken);
    var rows' := Rotate(rows, username, password, newToken);
    assert HasLogin(rows'[k], username, password);
  }

  /** Row by row: the rows of `username` carry the new password and token,
      all other rows are untouched. */
  lemma RotatedRows(rows: seq<User>, username: string, password: string, newToken: string)
    ensures var rows' := Rotate(rows, username, password, newToken);
      && |rows'| == |rows|
      && (forall i :: 0 <= i < |rows| ==> rows'[i].username == rows[i].username && rows'[i].id == rows[i].id)
      && (forall i :: 0 <= i < |rows| && rows[i].username == username ==>
            rows'[i].password == password && rows'[i].accesstoken == newToken)
      && (forall i :: 0 <= i < |rows| && rows[i].username != username ==> rows'[i] == rows[i])
  {
    var mid := SetPassword(rows, username, password);
    assert forall i :: 0 <= i < |rows| ==> mid[i].username == rows[i].username;
  }

  /** The access token `/auth/login` returns validates the same username. */
  lemma LoginTokenValidates(rows: seq<User>, username: string, password: string)
    requires username != ""
    requires LoginIndex(rows, username, password).Some?
    requires rows[LoginIndex(rows, username, password).value].accesstoken != ""
    ensures ValidateUser(username, rows[LoginIndex(rows, username, password).value].accesstoken, Some(rows)).Authenticated?
  {
    var i := LoginIndex(rows, username, password).value;
    assert HasCredential(rows[i], username, rows[i].accesstoken);
  }

  /** A user inserted by signup can then log in with the trimmed credentials,
      and their fresh access token validates. */
  lemma SignupThenLogin(t: Table, displayname: string, username: string, password: string, accesstoken: string)
    requires username != "" && accesstoken != ""
    ensures var rows := Insert(t, displayname, username, password, accesstoken).rows;
      && LoginIndex(rows, username, password).Some?
      && ValidateUser(username, accesstoken, Some(rows)).Authenticated?
  {
    var rows := Insert(t, displayname, username, password, accesstoken).rows;
    assert HasLogin(rows[|t.rows|], username, password);
    assert HasCredential(rows[|t.rows|], username, accesstoken);
  }

  /** The admin of a dataset is its earliest row, the one with the lowest id;
      exactly the names equal to its username up to case pass the admin test,
      and an empty dataset has no admin. */
  lemma AdminIsEarliestUser(t: Table, username: string)
    requires IdsIncreasing(t)
    ensures IsAdmin(t.rows, username) <==> t.rows != [] && ToLower(username) == ToLower(t.rows[0].username)
    ensures t.rows != [] ==> IsAdmin(t.rows, t.rows[0].username)
    ensures t.rows != [] ==> forall i :: 0 < i < |t.rows| ==> t.rows[0].id < t.rows[i].id
  {
  }

  /** The query string of an invite link. */
  function InviteQuery(token: string, p: Pool): string {
    "token=" + token + (if p == DemoPool then "&demo=true" else "")
  }

  /** The invite link carries the token as its `token` query parameter, and
      `demo=true` exactly for the demo pool, as the signup page reads them. */
  lemma InviteLinkQuery(inviteURL: string, token: string, p: Pool)
    requires '?' !in inviteURL && '?' !in token && '&' !in token
    ensures var parts := Split(InviteLink(inviteURL, token, p), '?');
      && |parts| == 2 && parts[0] == inviteURL
      && Split(parts[1], '&') == ["token=" + token] + (if p == DemoPool then ["demo=true"] else [])
  {
    var query := InviteQuery(token, p);
    InviteQueryParams(token, p);
    assert InviteLink(inviteURL, token, p) == inviteURL + "?" + query == Join([inviteURL, query], '?');
    SplitJoin([inviteURL, query], '?');
  }

  /** The query string splits on `&` into its parameters. */
  lemma InviteQueryParams(token: string, p: Pool)
    requires '?' !in token && '&' !in token
    ensures '?' !in InviteQuery(token, p)
    ensures Split(InviteQuery(token, p), '&') == ["token=" + token] + (if p == DemoPool then ["demo=true"] else [])
  {
    var params := ["token=" + token] + (if p == DemoPool then ["demo=true"] else []);
    assert '&' !in "token=" + token;
    if p == DemoPool {
      assert Join(params[1..], '&') == "demo=true";
    }
    assert Join(params, '&') == InviteQuery(token, p);
    SplitJoin(params, '&');
  }

  /** `"Bearer <token>".split(' ')[1]` is the token. */
  lemma BearerTokenOfHeader(scheme: string, token: string)
    requires ' ' !in scheme && ' ' !in token
    ensures BearerToken(scheme + " " + token) == Some(token)
  {
    assert scheme + " " + token == Join([scheme, token], ' ');
    SplitJoin([scheme, token], ' ');
  }
}
