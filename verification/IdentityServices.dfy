/** The identity services as the sequential code they are, over the transactions of the database:
    internal/application/users/service.go:174-384 and 466-516,
    internal/application/passwords/service.go:105-371, internal/application/sessions/service.go:278-325.
    Here nothing runs in between; IdentityRuns interleaves them, and IdentityServiceRuns shows that what
    each service does here is a run there. */
module IdentityServices {
  import opened Options
  import opened IdentityTables
  import opened IdentityDatabase
  import opened IdentityRuns

  datatype Reply =
    | Done
    | Unchanged
    | SelfLockout
    | SelfDeletion
    | InvalidEnrollment
    | InvalidLifetime
    | Rejected(why: Outcome)

  function ReplyTo(outcome: Outcome): Reply {
    if outcome == Committed then Done else Rejected(outcome)
  }

  // ----- what a service by itself does to the tables, by its reply -----

  predicate ChangeEffect(t: Tables, actor: UserId, id: UserId, change: Change, r: Reply, t': Tables) {
    if r != Done then t' == t
    else
      && id in t.users && GoesAhead(Updating(actor, id, t.users[id], change))
      && UpdateOutcome(t.users, id, Wanted(t.users[id], change)) == Committed
      && t' == WithUser(t, id, Wanted(t.users[id], change))
  }

  predicate DeleteEffect(t: Tables, actor: UserId, id: UserId, r: Reply, t': Tables) {
    if r != Done then t' == t else actor != id && DeleteOutcome(t, id) == Committed && t' == Deleted(t, id)
  }

  predicate IssueEffect(t: Tables, id: UserId, token: Token, now: Time, lifetime: Time, r: Reply, t': Tables) {
    if r != Done then t' == t
    else
      && SaveEnrollmentOutcome(t, id) == Committed && now != 0 && lifetime > 0
      && t' == WithEnrollment(t, id, Enrollment(token, now, now + lifetime))
  }

  predicate CompleteEffect(t: Tables, holder: Option<UserId>, token: Token, hash: string, now: Time, r: Reply,
        t': Tables)
  {
    if r != Done then t' == t
    else
      && holder.Some? && Holds(t.enrollments, holder.value, token) && IsValidAt(t.enrollments[holder.value], now)
      && holder.value !in t.credentials && t' == Completed(t, holder.value, hash)
  }

  predicate RevokeEffect(t: Tables, token: Token, now: Time, r: Reply, t': Tables) {
    t' == if r == Done && RevokeOutcome(t, token) == Committed then Revoked(t, token, now) else t
  }

  // ----- the services -----

  /** UpdateUser and SetUserActive: read, check, compute from the copy, write. */
  method ChangeUser(db: Database, actor: UserId, id: UserId, change: Change, fault: nat) returns (r: Reply)
    modifies db
    ensures ChangeEffect(old(db.View()), actor, id, change, r, db.View())
    ensures fault == 0 ==>
              r == if id !in old(db.users) then Rejected(UserNotFound)
                   else if LocksSelfOut(actor, id, old(db.users)[id], change) then SelfLockout
                   else if HasNoEffect(old(db.users)[id], change) then Unchanged
                   else ReplyTo(UpdateOutcome(old(db.users), id, Wanted(old(db.users)[id], change)))
  {
    if id !in db.users {
      return Rejected(UserNotFound);
    }
    var existing := db.users[id];
    if LocksSelfOut(actor, id, existing, change) {
      return SelfLockout;
    }
    if HasNoEffect(existing, change) {
      return Unchanged;
    }
    var outcome := db.UpdatePreservingLastAdministrator(id, Wanted(existing, change), fault);
    return ReplyTo(outcome);
  }

  method DeleteUser(db: Database, actor: UserId, id: UserId, fault: nat) returns (r: Reply)
    modifies db
    ensures DeleteEffect(old(db.View()), actor, id, r, db.View())
    ensures fault == 0 ==> r == if actor == id then SelfDeletion else ReplyTo(DeleteOutcome(old(db.View()), id))
  {
    if actor == id {
      return SelfDeletion;
    }
    var outcome := db.DeletePreservingLastAdministrator(id, fault);
    return ReplyTo(outcome);
  }

  method IssueEnrollment(db: Database, id: UserId, token: Token, now: Time, lifetime: Time, fault: nat)
    returns (r: Reply)
    modifies db
    ensures IssueEffect(old(db.View()), id, token, now, lifetime, r, db.View())
    ensures fault == 0 ==>
              r == if id !in old(db.users) then Rejected(UserNotFound)
                   else if now == 0 || lifetime <= 0 then InvalidLifetime
                   else ReplyTo(SaveEnrollmentOutcome(old(db.View()), id))
  {
    if id !in db.users {
      return Rejected(UserNotFound);
    }
    if now == 0 || lifetime <= 0 {
      return InvalidLifetime;
    }
    var outcome := db.SaveForCredentiallessUser(id, Enrollment(token, now, now + lifetime), fault);
    return ReplyTo(outcome);
  }

  ghost predicate TokensUnique(enrollments: map<UserId, Enrollment>) {
    forall a, b | a in enrollments && b in enrollments && enrollments[a].token == enrollments[b].token :: a == b
  }

  /** A completion succeeds exactly with the token of a stored enrollment that is valid now; it then
      replaces the enrollment by a credential. */
  method CompleteEnrollment(db: Database, token: Token, hash: string, now: Time, fault: nat)
    returns (r: Reply, ghost holder: Option<UserId>)
    requires Sound(db.View()) && TokensUnique(db.enrollments)
    modifies db
    ensures holder.Some? ==> Holds(old(db.enrollments), holder.value, token)
    ensures holder.None? ==> forall id :: !Holds(old(db.enrollments), id, token)
    ensures CompleteEffect(old(db.View()), holder, token, hash, now, r, db.View())
    ensures fault == 0 ==> r == if holder.Some? && IsValidAt(old(db.enrollments)[holder.value], now) then Done
              else InvalidEnrollment
  {
    var found := db.FindByTokenHash(token);
    holder := found;
    if found.None? || !IsValidAt(db.enrollments[found.value], now) {
      return InvalidEnrollment, holder;
    }
    if found.value !in db.users {
      return Rejected(UserNotFound), holder;
    }
    var outcome, consumed := db.CreateCredentialAndConsume(token, found.value, hash, now, fault);
    if outcome == EnrollmentNotFound || outcome == CredentialExists {
      return InvalidEnrollment, holder;
    }
    return ReplyTo(outcome), holder;
  }

  /** Idempotent: an unknown or already revoked session is no error. */
  method RevokeSession(db: Database, token: Token, now: Time, fault: nat) returns (r: Reply)
    modifies db
    ensures RevokeEffect(old(db.View()), token, now, r, db.View())
    ensures fault == 0 && (token in old(db.sessions) ==> old(db.sessions)[token].user in old(db.users)) ==> r == Done
  {
    if token !in db.sessions {
      return Done;
    }
    if db.sessions[token].user !in db.users {
      return Rejected(UserNotFound);
    }
    var outcome := db.RevokeWithAudit(token, now, fault);
    return if outcome == NothingToRevoke then Done else ReplyTo(outcome);
  }
}
