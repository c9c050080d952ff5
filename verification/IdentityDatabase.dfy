/** The identity repositories: their transactions statement by statement.

    `fault` picks the statement, counted from 1, whose execution (or, last, whose commit) the database
    refuses; 0 picks none.  A refused statement, like every early return, rolls the transaction back.
 */
module IdentityDatabase {
  import opened Options
  import opened IdentityTables

  class Database {
    var users: map<UserId, User>
    var credentials: map<UserId, string>
    var enrollments: map<UserId, Enrollment>
    var sessions: map<Token, Session>
    var grants: set<(MediaId, UserId)>
    var owners: map<MediaId, UserId>
    var revocations: seq<Token>

    function View(): Tables
      reads this
    {
      Tables(users, credentials, enrollments, sessions, grants, owners, revocations)
    }

    constructor ()
      ensures View() == Empty
    {
      users, credentials, enrollments, sessions, grants, owners, revocations := map[], map[], map[], map[], {}, map[],
        [];
    }

    method Rollback(before: Tables)
      modifies this
      ensures View() == before
    {
      users, credentials, enrollments, sessions := before.users, before.credentials, before.enrollments,
        before.sessions;
      grants, owners, revocations := before.grants, before.owners, before.revocations;
    }

    method BootstrapAdmin(id: UserId, username: string, hash: string, fault: nat) returns (outcome: Outcome)
      modifies this
      ensures (outcome == DatabaseError && fault > 0) || outcome == BootstrapOutcome(old(View()))
      ensures View() == if outcome == Committed then Bootstrapped(old(View()), id, username, hash) else old(View())
    {
      var before := View();
      if users != map[] {
        return AlreadyBootstrapped;
      }
      users := users[id := User(username, Admin, true)];
      if fault == 1 {
        Rollback(before);
        return DatabaseError;
      }
      credentials := credentials[id := hash];
      if fault == 2 {
        Rollback(before);
        return DatabaseError;
      }
      return Committed;
    }

    method CreateWithAudit(id: UserId, u: User, fault: nat) returns (outcome: Outcome)
      modifies this
      ensures (outcome == DatabaseError && fault > 0) || outcome == CreateOutcome(old(View()), id, u)
      ensures View() == if outcome == Committed then WithUser(old(View()), id, u) else old(View())
    {
      var before := View();
      if id in users || UsernameTaken(users, id, u.username) {
        return UserConflict;
      }
      users := users[id := u];
      if fault == 1 {
        Rollback(before);
        return DatabaseError;
      }
      return Committed;
    }

    method UpdatePreservingLastAdministrator(id: UserId, u: User, fault: nat) returns (outcome: Outcome)
      modifies this
      ensures (outcome == DatabaseError && fault > 0) || outcome == UpdateOutcome(old(users), id, u)
      ensures View() == if outcome == Committed then WithUser(old(View()), id, u) else old(View())
    {
      var before := View();
      if id !in users {
        return UserNotFound;
      }
      var existing := users[id];
      var removesActiveAdministrator := existing.active && existing.role == Admin && (!u.active || u.role != Admin);
      if removesActiveAdministrator {
        var count := |ActiveAdmins(users)|;
        if count <= 1 {
          return LastAdministrator;
        }
      }
      if UsernameTaken(users, id, u.username) {
        return UserConflict;
      }
      users := users[id := u];
      if fault == 1 {
        Rollback(before);
        return DatabaseError;
      }
      return Committed;
    }

    /** The related deletes, in their order; the caller rolls back. */
    method DeleteRelated(id: UserId, fault: nat) returns (deleted: bool)
      modifies this`enrollments, this`sessions, this`credentials
      ensures deleted ==>
                enrollments == old(enrollments) - {id} && sessions == SessionsWithout(old(sessions), id) &&
                  credentials == old(credentials) - {id}
      ensures fault !in {2, 3, 4} ==> deleted
    {
      enrollments := enrollments - {id};
      if fault == 2 {
        return false;
      }
      sessions := SessionsWithout(sessions, id);
      if fault == 3 {
        return false;
      }
      credentials := credentials - {id};
      return fault != 4;
    }

    method DeletePreservingLastAdministrator(id: UserId, fault: nat) returns (outcome: Outcome)
      modifies this
      ensures (outcome == DatabaseError && fault > 0) || outcome == DeleteOutcome(old(View()), id)
      ensures View() == if outcome == Committed then Deleted(old(View()), id) else old(View())
    {
      hide OwnsMedia, ActiveAdmins, GrantsWithout, SessionsWithout;
      var before := View();
      if id !in users {
        return UserNotFound;
      }
      if users[id].active && users[id].role == Admin {
        var count := |ActiveAdmins(users)|;
        if count <= 1 {
          return LastAdministrator;
        }
      }
      grants := GrantsWithout(grants, id);
      if fault == 1 {
        Rollback(before);
        return DatabaseError;
      }
      OwnershipUnchanged(before, View(), id);
      var ownsMedia := OwnsMedia(View(), id);
      if ownsMedia {
        Rollback(before);
        return UserOwnsMedia;
      }
      var deleted := DeleteRelated(id, fault);
      if !deleted {
        Rollback(before);
        return DatabaseError;
      }
      users := users - {id};
      if fault == 5 {
        Rollback(before);
        return DatabaseError;
      }
      return Committed;
    }

    method SaveForCredentiallessUser(id: UserId, e: Enrollment, fault: nat) returns (outcome: Outcome)
      modifies this
      ensures (outcome == DatabaseError && fault > 0) || outcome == SaveEnrollmentOutcome(old(View()), id)
      ensures View() == if outcome == Committed then WithEnrollment(old(View()), id, e) else old(View())
    {
      var before := View();
      if id !in users {
        return UserNotFound;
      }
      if id in credentials {
        return CredentialExists;
      }
      enrollments := enrollments[id := e];
      if fault == 1 {
        Rollback(before);
        return DatabaseError;
      }
      return Committed;
    }

    method FindByTokenHash(token: Token) returns (holder: Option<UserId>)
      ensures holder.Some? ==> Holds(enrollments, holder.value, token)
      ensures holder.None? ==> forall id :: !Holds(enrollments, id, token)
    {
      var left := enrollments.Keys;
      while left != {}
        invariant left <= enrollments.Keys
        invariant forall id | id in enrollments && id !in left :: !Holds(enrollments, id, token)
        decreases left
      {
        var id :| id in left;
        if enrollments[id].token == token {
          return Some(id);
        }
        left := left - {id};
      }
      return None;
    }

    method CreateCredentialAndConsume(token: Token, user: UserId, hash: string, now: Time, fault: nat)
      returns (outcome: Outcome, ghost holder: Option<UserId>)
      modifies this
      ensures holder.Some? ==> Holds(old(enrollments), holder.value, token)
      ensures holder.None? ==> forall id :: !Holds(old(enrollments), id, token)
      ensures (outcome == DatabaseError && fault > 0) || outcome == CompleteOutcome(old(View()), holder, user, now)
      ensures outcome == Committed ==> holder.Some?
      ensures View() == if outcome == Committed then Completed(old(View()), holder.value, hash) else old(View())
    {
      var before := View();
      var found := FindByTokenHash(token);
      holder := found;
      if found.None? {
        return EnrollmentNotFound, holder;
      }
      var userId := found.value;
      if now == 0 || !(now < enrollments[userId].expires) {
        return EnrollmentNotFound, holder;
      }
      if user != userId {
        return Mismatch, holder;
      }
      if userId in credentials {
        return CredentialExists, holder;
      }
      credentials := credentials[user := hash];
      if fault == 1 {
        Rollback(before);
        return DatabaseError, holder;
      }
      enrollments := enrollments - {userId};
      if fault == 2 {
        Rollback(before);
        return DatabaseError, holder;
      }
      return Committed, holder;
    }

    method ChangePasswordAndRevokeSessions(id: UserId, hash: string, at: Time, fault: nat) returns (outcome: Outcome)
      modifies this
      ensures (outcome == DatabaseError && fault > 0) || outcome == ChangeOutcome(old(View()), id)
      ensures View() == if outcome == Committed then PasswordChanged(old(View()), id, hash, at) else old(View())
    {
      var before := View();
      if id !in credentials {
        return CredentialNotFound;
      }
      credentials := credentials[id := hash];
      if fault == 1 {
        Rollback(before);
        return DatabaseError;
      }
      sessions := AllRevoked(sessions, id, at);
      if fault == 2 {
        Rollback(before);
        return DatabaseError;
      }
      return Committed;
    }

    /** Touches a session that is not revoked. */
    method Touch(token: Token, now: Time, fault: nat) returns (touched: bool)
      modifies this`sessions
      ensures touched ==>
                token in old(sessions) && old(sessions)[token].revoked.None? &&
                View() == Touched(old(View()), token, now)
      ensures !touched ==> sessions == old(sessions)
      ensures fault == 0 && token in old(sessions) && old(sessions)[token].revoked.None? ==> touched
    {
      if fault > 0 || token !in sessions || sessions[token].revoked.Some? {
        return false;
      }
      sessions := sessions[token := sessions[token].(lastSeen := now)];
      return true;
    }

    method RevokeWithAudit(token: Token, now: Time, fault: nat) returns (outcome: Outcome)
      modifies this
      ensures (outcome == DatabaseError && fault > 0) || outcome == RevokeOutcome(old(View()), token)
      ensures View() == if outcome == Committed then Revoked(old(View()), token, now) else old(View())
    {
      var before := View();
      if token !in sessions || sessions[token].revoked.Some? {
        return NothingToRevoke;
      }
      sessions := sessions[token := sessions[token].(revoked := Some(now))];
      revocations := revocations + [token];
      if fault == 1 {
        Rollback(before);
        return DatabaseError;
      }
      return Committed;
    }

    /** Resolve, with no other operation between its reads and its Touch. */
    method Resolve(token: Token, now: Time, idleTimeout: Time, fault: nat) returns (user: Option<UserId>)
      modifies this`sessions
      ensures user.Some? ==>
                && Resolves(old(View()), token, now, idleTimeout) && old(sessions)[token].revoked.None?
                && user.value == old(sessions)[token].user
                && View() == Touched(old(View()), token, now)
      ensures user.None? ==> sessions == old(sessions) && (fault == 0 ==>
                !Resolves(old(View()), token, now, idleTimeout) ||
                  (token in old(sessions) && BlankRevocation(old(sessions)[token])))
    {
      if token !in sessions || sessions[token].user !in users {
        return None;
      }
      var session := sessions[token];
      if !SessionValidAt(session, now, idleTimeout, users[session.user].active) {
        return None;
      }
      var touched := Touch(token, now, fault);
      return if touched then Some(session.user) else None;
    }
  }

  lemma OwnershipUnchanged(t: Tables, t': Tables, id: UserId)
    requires t'.owners == t.owners
    ensures OwnsMedia(t', id) == OwnsMedia(t, id)
  {
  }
}
