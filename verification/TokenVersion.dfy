/** Users, their token versions, and the tokens that carry a role: internal/db/db.go and
    internal/auth/jwt.go, with the login, logout and user handlers of internal/auth/handler.go. */
module TokenVersion {
  datatype User = User(username: string, hash: string, version: int, role: string)

  /** What a login reads from the store and signs. */
  datatype Claims = Claims(username: string, role: string, version: int)

  /** A token cannot be forged: it shows the secret it was signed with. */
  datatype Token = Token(claims: Claims, secret: nat)

  datatype Error = BadSignature | UserNotFound | VersionMismatch

  datatype Result = Ok(claims: Claims) | Err(error: Error)

  type Users = map<string, User>

  /** An empty stored role stands for admin on the user admin and for viewer on anyone else. */
  function RoleOf(u: User): string {
    if u.role != "" then u.role else if u.username == "admin" then "admin" else "viewer"
  }

  function ClaimsOf(u: User): Claims { Claims(u.username, RoleOf(u), u.version) }

  function Validate(users: Users, secret: nat, tok: Token): Result {
    if tok.secret != secret then Err(BadSignature)
    else if tok.claims.username !in users then Err(UserNotFound)
    else if tok.claims.version != users[tok.claims.username].version then Err(VersionMismatch)
    else Ok(tok.claims)
  }

  // ---- Writes, one transaction each -----------------------------------------------------------

  function Bumped(u: User): User { u.(version := u.version + 1) }

  function WithRole(users: Users, n: string, role: string): Users {
    if n in users then users[n := Bumped(users[n]).(role := role)] else users
  }

  function WithPassword(users: Users, n: string, hash: string): Users {
    if n in users then users[n := Bumped(users[n]).(hash := hash)] else users
  }

  function WithBump(users: Users, n: string): Users {
    if n in users then users[n := Bumped(users[n])] else users
  }

  function AllBumped(users: Users): Users { map n | n in users :: Bumped(users[n]) }

  function WithNew(users: Users, u: User): Users {
    if u.username in users then users else users[u.username := u]
  }

  // ---- Runs -----------------------------------------------------------------------------------------

  /** reading: claims that a login has read and may still sign. */
  datatype State = State(users: Users, secret: nat, spent: set<nat>, reading: set<Claims>, issued: set<Token>)

  datatype Step =
    | CreateIfAbsent(user: User)
    | UpdateUserRole(name: string, role: string)
    | UpdatePassword(name: string, hash: string)
    | Logout(name: string)
    | IncrementAll
    | ReplaceSecret(secret: nat)
    | LoginReads(name: string)
    | LoginSigns(claims: Claims)

  /** A store may start with any users and versions; no token of its secret exists yet. */
  predicate Initial(s: State) {
    (forall n :: n in s.users ==> s.users[n].username == n) && s.reading == {} && s.issued == {} && s.spent == {s.secret}
  }

  predicate Enabled(s: State, step: Step) {
    match step
    case ReplaceSecret(secret) => secret !in s.spent
    case LoginReads(n) => n in s.users
    case LoginSigns(claims) => claims in s.reading
    case _ => true
  }

  function Apply(s: State, step: Step): State
    requires Enabled(s, step)
  {
    match step
    case CreateIfAbsent(u) => s.(users := WithNew(s.users, u))
    case UpdateUserRole(n, role) => s.(users := WithRole(s.users, n, role))
    case UpdatePassword(n, hash) => s.(users := WithPassword(s.users, n, hash))
    case Logout(n) => s.(users := WithBump(s.users, n))
    case IncrementAll => s.(users := AllBumped(s.users))
    case ReplaceSecret(secret) => s.(secret := secret, spent := s.spent + {secret})
    case LoginReads(n) => s.(reading := s.reading + {ClaimsOf(s.users[n])})
    case LoginSigns(claims) => s.(issued := s.issued + {Token(claims, s.secret)})
  }

  ghost predicate RunsTo(s: State, steps: seq<Step>, t: State)
    decreases |steps|
  {
    if steps == [] then t == s
    else Enabled(s, steps[0]) && RunsTo(Apply(s, steps[0]), steps[1..], t)
  }

  ghost predicate Reachable(t: State) {
    exists s, steps :: Initial(s) && RunsTo(s, steps, t)
  }

  /** The user still stands as the claims say, or its version has moved past them. */
  predicate Honest(users: Users, c: Claims) {
    && c.username in users
    && c.version <= users[c.username].version
    && (c.version == users[c.username].version ==> c.role == RoleOf(users[c.username]))
  }

  ghost predicate Inv(s: State) {
    && (forall n :: n in s.users ==> s.users[n].username == n)
    && (forall c :: c in s.reading ==> Honest(s.users, c))
    && (forall t :: t in s.issued ==> Honest(s.users, t.claims) && t.secret in s.spent)
    && s.secret in s.spent
  }

  lemma UsersKeptHonest(s: State, step: Step, c: Claims)
    requires Inv(s) && Enabled(s, step) && Honest(s.users, c)
    ensures Honest(Apply(s, step).users, c)
  {
  }

  lemma InvKept(s: State, step: Step)
    requires Inv(s) && Enabled(s, step)
    ensures Inv(Apply(s, step))
  {
    var t := Apply(s, step);
    forall c | c in t.reading ensures Honest(t.users, c) {
      if c in s.reading { UsersKeptHonest(s, step, c); }
    }
    forall k | k in t.issued ensures Honest(t.users, k.claims) && k.secret in t.spent {
      if k in s.issued { UsersKeptHonest(s, step, k.claims); }
    }
  }

  lemma {:induction false} RunKeepsInv(s: State, steps: seq<Step>, t: State)
    requires Inv(s) && RunsTo(s, steps, t)
    ensures Inv(t)
    decreases |steps|
  {
    if steps != [] {
      InvKept(s, steps[0]);
      RunKeepsInv(Apply(s, steps[0]), steps[1..], t);
    }
  }

  lemma ReachableInv(t: State)
    requires Reachable(t)
    ensures Inv(t)
  {
    var s, steps :| Initial(s) && RunsTo(s, steps, t);
    RunKeepsInv(s, steps, t);
  }

  // ---- The privilege invariant -----------------------------------------------------------------------

  /** A token that validates carries the role its user has now. */
  lemma AcceptedRoleIsCurrent(s: State, tok: Token)
    requires Reachable(s) && tok in s.issued && Validate(s.users, s.secret, tok).Ok?
    ensures tok.claims.role == RoleOf(s.users[tok.claims.username])
  {
    ReachableInv(s);
  }

  /** The transactions that end every session of a user. */
  predicate Revokes(step: Step, n: string) {
    match step
    case UpdateUserRole(m, _) => m == n
    case UpdatePassword(m, _) => m == n
    case Logout(m) => m == n
    case IncrementAll => true
    case _ => false
  }

  /** Claims that the user has moved past. */
  predicate Stale(users: Users, c: Claims) {
    c.username in users && c.version < users[c.username].version
  }

  lemma {:induction false} StaleForever(s: State, steps: seq<Step>, t: State, c: Claims)
    requires RunsTo(s, steps, t) && Stale(s.users, c)
    ensures Stale(t.users, c)
    decreases |steps|
  {
    if steps != [] {
      assert Stale(Apply(s, steps[0]).users, c);
      StaleForever(Apply(s, steps[0]), steps[1..], t, c);
    }
  }

  /** Nothing issued before a change to its user validates at any later time, under any
      secret; neither does what a login in progress signs afterwards. */
  lemma RevokedForGood(s: State, step: Step, steps: seq<Step>, t: State, tok: Token)
    requires Reachable(s) && Enabled(s, step) && Revokes(step, tok.claims.username)
    requires tok in s.issued || tok.claims in s.reading
    requires RunsTo(Apply(s, step), steps, t)
    ensures Validate(t.users, t.secret, tok).Err?
  {
    ReachableInv(s);
    StaleForever(Apply(s, step), steps, t, tok.claims);
  }

  /** A secret that was replaced never signs an accepted token again. */
  lemma {:induction false} OldSecretForGood(s: State, steps: seq<Step>, t: State, tok: Token)
    requires RunsTo(s, steps, t) && tok.secret in s.spent && tok.secret != s.secret
    ensures Validate(t.users, t.secret, tok) == Err(BadSignature)
    decreases |steps|
  {
    if steps != [] {
      OldSecretForGood(Apply(s, steps[0]), steps[1..], t, tok);
    }
  }

  /** An accepted token stops being accepted exactly when its user is changed or the secret
      is replaced. */
  lemma AcceptedUntilRevoked(s: State, step: Step, tok: Token)
    requires Reachable(s) && Enabled(s, step) && tok in s.issued && Validate(s.users, s.secret, tok).Ok?
    ensures Validate(Apply(s, step).users, Apply(s, step).secret, tok).Err? <==>
            Revokes(step, tok.claims.username) || step.ReplaceSecret?
  {
    ReachableInv(s);
  }

  /** A login's token is accepted when signed exactly if its user was not changed meanwhile. */
  lemma FreshTokenAccepted(s: State, c: Claims)
    requires Reachable(s) && c in s.reading
    ensures c.username in s.users
    ensures Validate(s.users, s.secret, Token(c, s.secret)).Ok? <==> c == ClaimsOf(s.users[c.username])
  {
    ReachableInv(s);
  }

  // ---- What is stored, and for how long ---------------------------------------------------------------

  /** Each field of a stored user changes by the writes meant for it alone, and only those. */
  lemma StoredInFull(s: State, step: Step, n: string)
    requires Enabled(s, step)
    ensures var users := Apply(s, step).users;
            && (n in users <==> n in s.users || (step.CreateIfAbsent? && step.user.username == n))
            && (n in users && n !in s.users ==> users[n] == step.user)
            && (n in s.users ==>
                  && users[n].username == s.users[n].username
                  && users[n].role == (if step.UpdateUserRole? && step.name == n then step.role else s.users[n].role)
                  && users[n].hash == (if step.UpdatePassword? && step.name == n then step.hash else s.users[n].hash)
                  && users[n].version == s.users[n].version + if Revokes(step, n) then 1 else 0)
  {
  }

  /** The role a user is given is stored until it is given another. */
  lemma {:induction false} RoleStays(s: State, steps: seq<Step>, t: State, n: string)
    requires RunsTo(s, steps, t) && n in s.users
    requires forall i :: 0 <= i < |steps| ==> !(steps[i].UpdateUserRole? && steps[i].name == n)
    ensures n in t.users && t.users[n].role == s.users[n].role
    decreases |steps|
  {
    if steps != [] {
      StoredInFull(s, steps[0], n);
      RoleStays(Apply(s, steps[0]), steps[1..], t, n);
    }
  }

  /** Until then every login reads that role, and no accepted token of the user shows another. */
  lemma RoleHolds(s: State, n: string, role: string, steps: seq<Step>, t: State)
    requires Reachable(s) && n in s.users && role != ""
    requires RunsTo(Apply(s, UpdateUserRole(n, role)), steps, t)
    requires forall i :: 0 <= i < |steps| ==> !(steps[i].UpdateUserRole? && steps[i].name == n)
    ensures n in t.users && t.users[n].role == role
    ensures Apply(t, LoginReads(n)).reading == t.reading + {Claims(n, role, t.users[n].version)}
    ensures forall tok :: tok in t.issued && tok.claims.username == n && Validate(t.users, t.secret, tok).Ok? ==>
              tok.claims.role == role
  {
    ReachableInv(s);
    InvKept(s, UpdateUserRole(n, role));
    RunKeepsInv(Apply(s, UpdateUserRole(n, role)), steps, t);
    RoleStays(Apply(s, UpdateUserRole(n, role)), steps, t, n);
  }

  /** The same for a password: its hash is the stored one until the next. */
  lemma {:induction false} HashHolds(s: State, n: string, hash: string, steps: seq<Step>, t: State)
    requires n in s.users && RunsTo(Apply(s, UpdatePassword(n, hash)), steps, t)
    requires forall i :: 0 <= i < |steps| ==> !(steps[i].UpdatePassword? && steps[i].name == n)
    ensures n in t.users && t.users[n].hash == hash
  {
    HashStays(Apply(s, UpdatePassword(n, hash)), steps, t, n);
  }

  lemma {:induction false} HashStays(s: State, steps: seq<Step>, t: State, n: string)
    requires RunsTo(s, steps, t) && n in s.users
    requires forall i :: 0 <= i < |steps| ==> !(steps[i].UpdatePassword? && steps[i].name == n)
    ensures n in t.users && t.users[n].hash == s.users[n].hash
    decreases |steps|
  {
    if steps != [] {
      StoredInFull(s, steps[0], n);
      HashStays(Apply(s, steps[0]), steps[1..], t, n);
    }
  }

  /** A login in one breath: its token is accepted at once, with the role stored or, where none
      is, admin for the user admin and viewer for anyone else. */
  lemma LoginInFull(s: State, n: string)
    requires Reachable(s) && n in s.users
    ensures var u := s.users[n];
            var c := Claims(n, if u.role != "" then u.role else if n == "admin" then "admin" else "viewer", u.version);
            && c in Apply(s, LoginReads(n)).reading && Enabled(Apply(s, LoginReads(n)), LoginSigns(c))
            && var t := Apply(Apply(s, LoginReads(n)), LoginSigns(c));
            && t.issued == s.issued + {Token(c, s.secret)}
            && Validate(t.users, t.secret, Token(c, s.secret)) == Ok(c)
  {
    ReachableInv(s);
  }

  /** When a token is accepted, and which check refuses it first. */
  lemma AcceptedIff(users: Users, secret: nat, tok: Token)
    ensures Validate(users, secret, tok).Ok? <==>
            && tok.secret == secret && tok.claims.username in users
            && users[tok.claims.username].version == tok.claims.version
    ensures Validate(users, secret, tok).Ok? ==> Validate(users, secret, tok).claims == tok.claims
    ensures Validate(users, secret, tok) == Err(BadSignature) <==> tok.secret != secret
    ensures Validate(users, secret, tok) == Err(UserNotFound) <==> tok.secret == secret && tok.claims.username !in users
  {
  }

  // ---- The rule for new writes ------------------------------------------------------------------------

  /** The write u -> v leaves no way to hold claims that were honest and no longer are. */
  ghost predicate SafeWrite(u: User, v: User) {
    forall c :: Honest(map[u.username := u], c) ==> Honest(map[u.username := v], c)
  }

  /** The rule stated above ValidateJWTWithVersionCheck, both ways: a write may go without a
      bump only if it leaves version and role as they are, and may never lower the version. */
  lemma SafeWriteIff(u: User, v: User)
    requires v.username == u.username
    ensures SafeWrite(u, v) <==> u.version < v.version || (v.version == u.version && RoleOf(v) == RoleOf(u))
  {
    var c := ClaimsOf(u);
    assert Honest(map[u.username := u], c);
  }

  // ---- The store object -----------------------------------------------------------------------------

  class DB {
    var users: Users

    method GetUser(n: string) returns (found: bool, user: User)
      ensures found == (n in users)
      ensures found ==> user == users[n].(role := RoleOf(users[n]))
    {
      found := n in users;
      if !found { return false, User("", "", 0, ""); }
      user := users[n];
      if user.role == "" {
        user := user.(role := if user.username == "admin" then "admin" else "viewer");
      }
    }

    method UpdatePasswordWithVersion(n: string, hash: string) returns (found: bool)
      modifies this
      ensures found == (n in old(users)) && users == WithPassword(old(users), n, hash)
      ensures found ==> users[n] == User(old(users)[n].username, hash, old(users)[n].version + 1, old(users)[n].role)
      ensures users.Keys == old(users).Keys && forall m :: m in users && m != n ==> users[m] == old(users)[m]
    {
      if n !in users { return false; }
      var user := users[n];
      user := user.(hash := hash);
      user := user.(version := user.version + 1);
      users := users[n := user];
      return true;
    }

    method IncrementTokenVersion(n: string) returns (found: bool)
      modifies this
      ensures found == (n in old(users)) && users == WithBump(old(users), n)
      ensures found ==> users[n] == User(old(users)[n].username, old(users)[n].hash, old(users)[n].version + 1, old(users)[n].role)
      ensures users.Keys == old(users).Keys && forall m :: m in users && m != n ==> users[m] == old(users)[m]
    {
      if n !in users { return false; }
      var user := users[n];
      user := user.(version := user.version + 1);
      users := users[n := user];
      return true;
    }

    method UpdateUserRole(n: string, role: string) returns (found: bool)
      modifies this
      ensures found == (n in old(users)) && users == WithRole(old(users), n, role)
      ensures found ==> users[n] == User(old(users)[n].username, old(users)[n].hash, old(users)[n].version + 1, role)
      ensures users.Keys == old(users).Keys && forall m :: m in users && m != n ==> users[m] == old(users)[m]
    {
      if n !in users { return false; }
      var user := users[n];
      user := user.(role := role);
      user := user.(version := user.version + 1);
      users := users[n := user];
      return true;
    }

    method IncrementAllTokenVersions()
      modifies this
      ensures users == AllBumped(old(users)) && users.Keys == old(users).Keys
      ensures forall n :: n in users ==>
                users[n] == User(old(users)[n].username, old(users)[n].hash, old(users)[n].version + 1, old(users)[n].role)
    {
      var left := users.Keys;
      while left != {}
        invariant left <= users.Keys == old(users).Keys
        invariant forall n :: n in users ==> users[n] == if n in left then old(users)[n] else Bumped(old(users)[n])
        decreases |left|
      {
        var n :| n in left;
        var user := users[n];
        users := users[n := user.(version := user.version + 1)];
        left := left - {n};
      }
    }

    method EnsureDefaultAdmin(hash: string) returns (created: bool)
      modifies this
      ensures created == ("admin" !in old(users))
      ensures users == WithNew(old(users), User("admin", hash, 0, "admin"))
      ensures users.Keys == old(users).Keys + {"admin"} && (created ==> users["admin"] == User("admin", hash, 0, "admin"))
      ensures forall n :: n in old(users) ==> users[n] == old(users)[n]
    {
      var found, _ := GetUser("admin");
      if found { return false; }
      users := users["admin" := User("admin", hash, 0, "admin")];
      return true;
    }
  }
}
