/** The identity tables and the transactions on them: users
    (internal/storage/sqlite/user_repository.go:101-420), the first administrator
    (admin_bootstrap.go:31-107), enrollments (password_enrollment_repository.go:52-323), credentials
    (password_credential_repository.go:124-182) and sessions (session_repository.go).

    A transaction commits as a whole or leaves every row as it was.  Nothing is assumed of foreign
    keys.
 */
module IdentityTables {
  import opened Options

  type UserId = string
  type MediaId = string
  type Token = string   // a token stands for its SHA-256 hash, taken as injective
  type Time = int       // nanoseconds after Go's zero time, which is 0

  datatype Role = Viewer | Editor | Admin
  datatype User = User(username: string, role: Role, active: bool)
  datatype Enrollment = Enrollment(token: Token, created: Time, expires: Time)
  datatype Session = Session(user: UserId, created: Time, lastSeen: Time, expires: Time, revoked: Option<Time>)

  /** `revocations` lists the session.revoked events of the audit table by the session they are
      about. */
  datatype Tables = Tables(
    users: map<UserId, User>,
    credentials: map<UserId, string>,
    enrollments: map<UserId, Enrollment>,
    sessions: map<Token, Session>,
    grants: set<(MediaId, UserId)>,
    owners: map<MediaId, UserId>,
    revocations: seq<Token>)

  const Empty := Tables(map[], map[], map[], map[], {}, map[], [])

  datatype Outcome =
    | Committed
    | AlreadyBootstrapped
    | UserNotFound
    | UserConflict
    | LastAdministrator
    | UserOwnsMedia
    | CredentialExists
    | CredentialNotFound
    | EnrollmentNotFound
    | Mismatch
    | NothingToRevoke
    | DatabaseError

  // ----- users -----

  predicate ActiveAdmin(u: User) {
    u.role.Admin? && u.active
  }

  /** SELECT COUNT(*) FROM users WHERE role = 'admin' AND active = 1. */
  function ActiveAdmins(users: map<UserId, User>): set<UserId> {
    set id | id in users && ActiveAdmin(users[id])
  }

  predicate UsernameTaken(users: map<UserId, User>, id: UserId, username: string) {
    exists other :: other in users && other != id && users[other].username == username
  }

  function BootstrapOutcome(t: Tables): Outcome {
    if t.users != map[] then AlreadyBootstrapped else Committed
  }

  function Bootstrapped(t: Tables, id: UserId, username: string, hash: string): Tables {
    t.(users := t.users[id := User(username, Admin, true)], credentials := t.credentials[id := hash])
  }

  function CreateOutcome(t: Tables, id: UserId, u: User): Outcome {
    if id in t.users || UsernameTaken(t.users, id, u.username) then UserConflict else Committed
  }

  function UpdateOutcome(users: map<UserId, User>, id: UserId, u: User): Outcome {
    if id !in users then UserNotFound
    else if ActiveAdmin(users[id]) && !ActiveAdmin(u) && |ActiveAdmins(users)| <= 1 then LastAdministrator
    else if UsernameTaken(users, id, u.username) then UserConflict
    else Committed
  }

  function WithUser(t: Tables, id: UserId, u: User): Tables {
    t.(users := t.users[id := u])
  }

  predicate OwnsMedia(t: Tables, id: UserId) {
    exists m :: m in t.owners && t.owners[m] == id
  }

  function DeleteOutcome(t: Tables, id: UserId): Outcome {
    if id !in t.users then UserNotFound
    else if ActiveAdmin(t.users[id]) && |ActiveAdmins(t.users)| <= 1 then LastAdministrator
    else if OwnsMedia(t, id) then UserOwnsMedia
    else Committed
  }

  function GrantsWithout(grants: set<(MediaId, UserId)>, id: UserId): set<(MediaId, UserId)> {
    set g | g in grants && g.1 != id
  }

  function SessionsWithout(sessions: map<Token, Session>, id: UserId): map<Token, Session> {
    map token | token in sessions && sessions[token].user != id :: sessions[token]
  }

  function Deleted(t: Tables, id: UserId): Tables {
    t.(users := t.users - {id}, credentials := t.credentials - {id}, enrollments := t.enrollments - {id},
       sessions := SessionsWithout(t.sessions, id), grants := GrantsWithout(t.grants, id))
  }

  // ----- enrollments and credentials -----

  predicate IsValidAt(e: Enrollment, now: Time) {
    now != 0 && e.created <= now < e.expires
  }

  function SaveEnrollmentOutcome(t: Tables, id: UserId): Outcome {
    if id !in t.users then UserNotFound
    else if id in t.credentials then CredentialExists
    else Committed
  }

  function WithEnrollment(t: Tables, id: UserId, e: Enrollment): Tables {
    t.(enrollments := t.enrollments[id := e])
  }

  predicate Holds(enrollments: map<UserId, Enrollment>, id: UserId, token: Token) {
    id in enrollments && enrollments[id].token == token
  }

  /** For the row that holds the token, if there is one. */
  function CompleteOutcome(t: Tables, holder: Option<UserId>, user: UserId, now: Time): Outcome
    requires holder.Some? ==> holder.value in t.enrollments
  {
    if holder.None? || now == 0 || now >= t.enrollments[holder.value].expires then EnrollmentNotFound
    else if user != holder.value then Mismatch
    else if holder.value in t.credentials then CredentialExists
    else Committed
  }

  function Completed(t: Tables, id: UserId, hash: string): Tables {
    t.(credentials := t.credentials[id := hash], enrollments := t.enrollments - {id})
  }

  /** revoked_at = COALESCE(revoked_at, ?) for every session of the user. */
  function AllRevoked(sessions: map<Token, Session>, id: UserId, at: Time): map<Token, Session> {
    map token | token in sessions ::
      if sessions[token].user == id && sessions[token].revoked.None? then sessions[token].(revoked := Some(at))
        else sessions[token]
  }

  function ChangeOutcome(t: Tables, id: UserId): Outcome {
    if id !in t.credentials then CredentialNotFound else Committed
  }

  function PasswordChanged(t: Tables, id: UserId, hash: string, at: Time): Tables {
    t.(credentials := t.credentials[id := hash], sessions := AllRevoked(t.sessions, id, at))
  }

  // ----- sessions -----

  function NewSession(user: UserId, now: Time, lifetime: Time): Session {
    Session(user, now, now, now + lifetime, None)
  }

  predicate SessionValidAt(s: Session, now: Time, idleTimeout: Time, userActive: bool) {
    && now != 0 && idleTimeout > 0 && userActive && (s.revoked.None? || s.revoked.value == 0)
    && s.created <= now < s.expires && now < s.lastSeen + idleTimeout
  }

  /** What Resolve reads, at one time: the session is there, so is its user, and it is valid. */
  predicate Resolves(t: Tables, token: Token, now: Time, idleTimeout: Time) {
    && token in t.sessions && t.sessions[token].user in t.users
    && SessionValidAt(t.sessions[token], now, idleTimeout, t.users[t.sessions[token].user].active)
  }

  /** Revoked by a clock that stood at zero: IsValidAt takes such a time for none, Touch does not. */
  predicate BlankRevocation(s: Session) {
    s.revoked == Some(0)
  }

  function RevokeOutcome(t: Tables, token: Token): Outcome {
    if token !in t.sessions || t.sessions[token].revoked.Some? then NothingToRevoke else Committed
  }

  function Revoked(t: Tables, token: Token, at: Time): Tables
    requires token in t.sessions
  {
    t.(sessions := t.sessions[token := t.sessions[token].(revoked := Some(at))], revocations := t.revocations + [token])
  }

  function Touched(t: Tables, token: Token, now: Time): Tables
    requires token in t.sessions
  {
    t.(sessions := t.sessions[token := t.sessions[token].(lastSeen := now)])
  }

  // ----- what every transaction keeps -----

  ghost predicate HasActiveAdmin(users: map<UserId, User>) {
    exists id :: id in users && ActiveAdmin(users[id])
  }

  /** Enrollment or credential but not both, and only for users that exist. */
  ghost predicate OneWayIn(users: map<UserId, User>, credentials: map<UserId, string>, 
        enrollments: map<UserId, Enrollment>)
  {
    && (forall id | id in enrollments :: id in users && id !in credentials)
    && (forall id | id in credentials :: id in users)
  }

  ghost predicate Sound(t: Tables) {
    HasActiveAdmin(t.users) && OneWayIn(t.users, t.credentials, t.enrollments)
  }

  lemma {:induction false} AnotherMember<T>(s: set<T>, x: T) returns (other: T)
    requires |s| >= 2
    ensures other in s && other != x
  {
    if x in s {
      assert |s - {x}| == |s| - 1;
      other :| other in s - {x};
    } else {
      other :| other in s;
    }
  }

  lemma BootstrapIsSound(id: UserId, username: string, hash: string)
    ensures Sound(Bootstrapped(Empty, id, username, hash))
  {
    var users := Bootstrapped(Empty, id, username, hash).users;
    assert id in users && ActiveAdmin(users[id]);
  }

  /** Whatever user value is written, stale or not. */
  lemma UpdateKeepsSound(t: Tables, id: UserId, u: User)
    requires Sound(t) && UpdateOutcome(t.users, id, u) == Committed
    ensures Sound(WithUser(t, id, u))
  {
    var users := t.users[id := u];
    if ActiveAdmin(u) {
      assert id in users && ActiveAdmin(users[id]);
    } else if ActiveAdmin(t.users[id]) {
      var other := AnotherMember(ActiveAdmins(t.users), id);
      assert other in users && ActiveAdmin(users[other]);
    } else {
      var admin :| admin in t.users && ActiveAdmin(t.users[admin]);
      assert admin in users && ActiveAdmin(users[admin]);
    }
  }

  lemma CreateKeepsSound(t: Tables, id: UserId, u: User)
    requires Sound(t) && CreateOutcome(t, id, u) == Committed
    ensures Sound(WithUser(t, id, u))
  {
    var admin :| admin in t.users && ActiveAdmin(t.users[admin]);
    assert admin in WithUser(t, id, u).users;
  }

  lemma DeleteKeepsSound(t: Tables, id: UserId)
    requires Sound(t) && DeleteOutcome(t, id) == Committed
    ensures Sound(Deleted(t, id))
  {
    var users := t.users - {id};
    if ActiveAdmin(t.users[id]) {
      var other := AnotherMember(ActiveAdmins(t.users), id);
      assert other in users && ActiveAdmin(users[other]);
    } else {
      var admin :| admin in t.users && ActiveAdmin(t.users[admin]);
      assert admin in users && ActiveAdmin(users[admin]);
    }
  }

  /** A deletion is refused when it would leave no active administrator, and only then among the users
      that own no media. */
  lemma DeletionIsRefusedForTheLastAdministrator(t: Tables, id: UserId)
    requires id in t.users && HasActiveAdmin(t.users)
    ensures DeleteOutcome(t, id) == LastAdministrator <==> !HasActiveAdmin(t.users - {id})
  {
    var admins := ActiveAdmins(t.users);
    if |admins| >= 2 {
      var other := AnotherMember(admins, id);
      assert other in t.users - {id};
    } else {
      var admin :| admin in t.users && ActiveAdmin(t.users[admin]);
      assert admin in admins;
      OnlyMember(admins, admin);
      if ActiveAdmin(t.users[id]) {
        assert id in admins;
      } else {
        assert admin in t.users - {id};
      }
    }
  }

  lemma OnlyMember<T>(s: set<T>, x: T)
    requires |s| <= 1 && x in s
    ensures s == {x}
  {
    assert |s - {x}| == |s| - 1;
  }

  /** A committed deletion leaves no row of the user. */
  lemma DeletionLeavesNoRow(t: Tables, id: UserId)
    requires DeleteOutcome(t, id) == Committed
    ensures var t' := Deleted(t, id);
            && id !in t'.users && id !in t'.credentials && id !in t'.enrollments
            && (forall token | token in t'.sessions :: t'.sessions[token].user != id)
            && (forall m :: (m, id) !in t'.grants) && !OwnsMedia(t', id)
    ensures var t' := Deleted(t, id);
            && (forall other | other != id :: (other in t'.users <==> other in t.users) &&
                 (other in t'.credentials <==> other in t.credentials)
                                              && (other in t'.enrollments <==> other in t.enrollments))
            && (forall token | token in t.sessions && t.sessions[token].user != id ::
                 token in t'.sessions && t'.sessions[token] == t.sessions[token])
            && (forall m, other | other != id && (m, other) in t.grants :: (m, other) in t'.grants)
  {
  }
}
