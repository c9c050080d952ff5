/** Runs of the identity services.  Every transaction is one step; a service operation that reads
    first and writes later keeps the copy it has read, and other operations run in between:
    internal/application/users/service.go:174-384 and 466-516,
    internal/application/passwords/service.go:105-371, internal/application/sessions/service.go:115-325.

    A step that the database refuses changes nothing, so it needs no action of its own; an operation
    that gives up is an Abandon.
 */
module IdentityRuns {
  import opened Identities
  import opened Options
  import opened IdentityTables

  type Op = nat

  datatype Change = Details(username: string, role: Role) | Activation(active: bool)

  datatype Work =
    | Updating(actor: UserId, id: UserId, copy: User, change: Change)
    | Completing(user: UserId, read: Enrollment, now: Time)
    | LoggingIn(login: UserId, changesRead: nat)     // authenticated; the session comes next
    | Touching(session: Token, seen: Time)           // Resolve found the session valid; Touch comes next

  datatype Issue = Issue(user: UserId, enrollment: Enrollment)

  /** How a session came about: how many password changes its user had had when the login read the
      credential, and when its row was inserted. */
  datatype Login = Login(owner: UserId, from: Time, until: Time, changesRead: nat, changesInserted: nat)

  /** What has happened so far: every enrollment ever saved by its token, the latest one of each user,
      the tokens that created a credential; the number of password changes of each user; for each
      session ever created its login and the time of its creation or last successful Resolve, and the
      sessions that have been revoked, by a password change or otherwise. */
  datatype History = History(
    issued: map<Token, Issue>,
    latest: map<UserId, Token>,
    consumed: set<Token>,
    changes: map<UserId, nat>,
    logins: map<Token, Login>,
    lastUse: map<Token, Time>,
    ended: set<Token>)

  function ChangesOf(changes: map<UserId, nat>, id: UserId): nat {
    if id in changes then changes[id] else 0
  }

  datatype State = State(tables: Tables, works: map<Op, Work>, clock: Time, idleTimeout: Time, history: History)

  // ----- what a service makes of its copy -----

  function Wanted(copy: User, change: Change): User {
    match change
    case Details(username, role) => User(username, role, copy.active)
    case Activation(active) => copy.(active := active)
  }

  /** An administrator may not take the role or the activation from itself. */
  predicate LocksSelfOut(actor: UserId, id: UserId, copy: User, change: Change) {
    && actor == id && copy.role.Admin?
    && match change
       case Details(_, role) => !role.Admin?
       case Activation(active) => !active
  }

  predicate HasNoEffect(copy: User, change: Change) {
    change.Activation? && copy.active == change.active
  }

  predicate GoesAhead(w: Work)
    requires w.Updating?
  {
    !LocksSelfOut(w.actor, w.id, w.copy, w.change) && !HasNoEffect(w.copy, w.change)
  }

  // ----- steps -----

  datatype Action =
    | Tick(now: Time)
    | CreateUser(id: UserId, user: User)
    | ReadUser(op: Op, actor: UserId, id: UserId, change: Change)
    | WriteUser(op: Op)
    | DeleteUser(actor: UserId, id: UserId)
    | SetGrant(media: MediaId, id: UserId, given: bool)
    | SetOwner(media: MediaId, newOwner: Option<UserId>)
    | IssueEnrollment(id: UserId, enrollment: Enrollment)
    | ReadEnrollment(op: Op, id: UserId, token: Token)
    | CompleteEnrollment(op: Op, hash: string)
    | Abandon(op: Op)
    | ChangePassword(id: UserId, hash: string, at: Time)
    | ReadCredential(op: Op, id: UserId)
    | CreateSession(op: Op, token: Token, created: Time, lifetime: Time)
    | ReadSession(op: Op, token: Token)
    | TouchSession(op: Op)
    | Revoke(token: Token, at: Time)

  /** A time that some service read from the clock before. */
  predicate Past(s: State, t: Time) {
    0 < t <= s.clock
  }

  /** Tokens are fresh.  A committed transaction is enabled when it would commit. */
  predicate Enabled(s: State, a: Action) {
    match a
    case Tick(now) => now >= s.clock
    case CreateUser(id, user) => CreateOutcome(s.tables, id, user) == Committed
    case ReadUser(op, _, id, _) => op !in s.works && id in s.tables.users
    case WriteUser(op) =>
      op in s.works && s.works[op].Updating? && GoesAhead(s.works[op])
      && UpdateOutcome(s.tables.users, s.works[op].id, Wanted(s.works[op].copy, s.works[op].change)) == Committed
    case DeleteUser(actor, id) => actor != id && DeleteOutcome(s.tables, id) == Committed
    case SetGrant(_, _, _) => true
    case SetOwner(_, _) => true
    case IssueEnrollment(id, e) =>
      SaveEnrollmentOutcome(s.tables, id) == Committed && e.token !in s.history.issued && Past(s, e.created) &&
        e.created < e.expires
    case ReadEnrollment(op, id, token) =>
      op !in s.works && Holds(s.tables.enrollments, id, token) && IsValidAt(s.tables.enrollments[id], s.clock)
    case CompleteEnrollment(op, _) =>
      op in s.works && s.works[op].Completing?
      && exists holder :: holder in s.tables.enrollments && Holds(s.tables.enrollments, holder, s.works[op].read.token)
           && CompleteOutcome(s.tables, Some(holder), s.works[op].user, s.works[op].now) == Committed
    case Abandon(op) => op in s.works
    case ChangePassword(id, _, at) => ChangeOutcome(s.tables, id) == Committed && Past(s, at)
    case ReadCredential(op, id) => op !in s.works && id in s.tables.credentials
    case CreateSession(op, token, created, lifetime) =>
      op in s.works && s.works[op].LoggingIn? && token !in s.history.lastUse && Past(s, created) && lifetime > 0
    case ReadSession(op, token) => op !in s.works && Resolves(s.tables, token, s.clock, s.idleTimeout)
    case TouchSession(op) =>
      op in s.works && s.works[op].Touching?
      && s.works[op].session in s.tables.sessions && s.tables.sessions[s.works[op].session].revoked.None?
    case Revoke(token, at) => RevokeOutcome(s.tables, token) == Committed && Past(s, at)
  }

  function SessionsOf(sessions: map<Token, Session>, id: UserId): set<Token> {
    set token | token in sessions && sessions[token].user == id
  }

  function Apply(s: State, a: Action): State
    requires Enabled(s, a)
  {
    var t, h := s.tables, s.history;
    match a
    case Tick(now) => s.(clock := now)
    case CreateUser(id, user) => s.(tables := WithUser(t, id, user))
    case ReadUser(op, actor, id, change) => s.(works := s.works[op := Updating(actor, id, t.users[id], change)])
    case WriteUser(op) =>
      s.(tables := WithUser(t, s.works[op].id, Wanted(s.works[op].copy, s.works[op].change)), works := s.works - {op})
    case DeleteUser(_, id) => s.(tables := Deleted(t, id))
    case SetGrant(media, id, given) => s.(tables := t.(grants := if given then t.grants + {(media, id)}
      else t.grants - {(media, id)}))
    case SetOwner(media, owner) => s.(tables := t.(owners := if owner.Some? then t.owners[media := owner.value]
      else t.owners - {media}))
    case IssueEnrollment(id, e) =>
      s.(tables := WithEnrollment(t, id, e), history := h.(issued := h.issued[e.token := Issue(id, e)],
        latest := h.latest[id := e.token]))
    case ReadEnrollment(op, id, token) => s.(works := s.works[op := Completing(id, t.enrollments[id], s.clock)])
    case CompleteEnrollment(op, hash) =>
      var w := s.works[op];
      s.(tables := Completed(t, w.user, hash), works := s.works - {op},
        history := h.(consumed := h.consumed + {w.read.token}))
    case Abandon(op) => s.(works := s.works - {op})
    case ChangePassword(id, hash, at) =>
      s.(tables := PasswordChanged(t, id, hash, at),
        history := h.(changes := h.changes[id := ChangesOf(h.changes, id) + 1],
                          ended := h.ended + SessionsOf(t.sessions, id)))
    case ReadCredential(op, id) => s.(works := s.works[op := LoggingIn(id, ChangesOf(h.changes, id))])
    case CreateSession(op, token, created, lifetime) =>
      var w := s.works[op];
      var login := Login(w.login, created, created + lifetime, w.changesRead, ChangesOf(h.changes, w.login));
      s.(tables := t.(sessions := t.sessions[token := NewSession(w.login, created, lifetime)]), works := s.works - {op},
         history := h.(logins := h.logins[token := login], lastUse := h.lastUse[token := created]))
    case ReadSession(op, token) => s.(works := s.works[op := Touching(token, s.clock)])
    case TouchSession(op) =>
      var w := s.works[op];
      s.(tables := Touched(t, w.session, w.seen), works := s.works - {op},
        history := h.(lastUse := h.lastUse[w.session := w.seen]))
    case Revoke(token, at) => s.(tables := Revoked(t, token, at), history := h.(ended := h.ended + {token}))
  }

  datatype Reached = Stuck | At(state: State)

  function RunFrom(start: State, actions: seq<Action>): Reached {
    if actions == [] then At(start)
    else match RunFrom(start, actions[..|actions| - 1])
      case Stuck => Stuck
      case At(s) => if Enabled(s, actions[|actions| - 1]) then At(Apply(s, actions[|actions| - 1])) else Stuck
  }

  datatype Founder = Founder(id: UserId, username: string, hash: string, idleTimeout: Time)

  /** The archive after its bootstrap. */
  function Initial(f: Founder): State {
    State(Bootstrapped(Empty, f.id, f.username, f.hash), map[], 1, f.idleTimeout,
      History(map[], map[], {}, map[], map[], map[], {}))
  }

  function Run(f: Founder, actions: seq<Action>): Reached {
    RunFrom(Initial(f), actions)
  }

  // ----- the invariant, part by part -----

  /** A stored enrollment is the latest one of its user, as it was issued, and not used up. */
  ghost predicate EnrollmentsKnown(enrollments: map<UserId, Enrollment>, h: History) {
    forall id | id in enrollments ::
      var token := enrollments[id].token;
      token in h.issued && h.issued[token] == Issue(id, enrollments[id]) && id in h.latest && h.latest[id] == token &&
        token !in h.consumed
  }

  /** What a completion has read was issued so, and was valid when it was read. */
  ghost predicate WorksKnown(works: map<Op, Work>, h: History) {
    forall op | op in works && works[op].Completing? ::
      var w := works[op];
      w.read.token in h.issued && h.issued[w.read.token] == Issue(w.user, w.read) && IsValidAt(w.read, w.now)
  }

  ghost predicate ConsumedKnown(h: History) {
    forall token | token in h.consumed :: token in h.issued
  }

  ghost predicate SessionsKnown(sessions: map<Token, Session>, h: History, clock: Time) {
    forall token | token in sessions ::
      var x := sessions[token];
      && token in h.lastUse && h.lastUse[token] == x.lastSeen && x.created <= clock && x.lastSeen <= clock
      && (x.revoked.Some? <==> token in h.ended) && (x.revoked.Some? ==> x.revoked.value > 0)
  }

  ghost predicate RevocationsKnown(revocations: seq<Token>, h: History) {
    && (forall token | token in h.ended :: token in h.lastUse)
    && (forall token | token in revocations :: token in h.ended)
    && (forall i, j | 0 <= i < j < |revocations| :: revocations[i] != revocations[j])
  }

  /** A Touch that is to come was preceded by a valid look at the session. */
  ghost predicate TouchesKnown(works: map<Op, Work>, h: History, clock: Time) {
    forall op | op in works && works[op].Touching? ::
      var w := works[op];
      0 < w.seen <= clock && w.session in h.lastUse && w.session in h.logins &&
        h.logins[w.session].from <= w.seen < h.logins[w.session].until
  }

  ghost predicate SessionPart(s: State) {
    && SessionsKnown(s.tables.sessions, s.history, s.clock) && RevocationsKnown(s.tables.revocations, s.history)
    && TouchesKnown(s.works, s.history, s.clock)
  }

  /** A session row is that of its login, and is revoked because it was revoked singly or because the
      password has changed since it was inserted. */
  ghost predicate LoginKnown(token: Token, x: Session, revocations: seq<Token>, h: History) {
    && token in h.logins
    && var login := h.logins[token];
       && login.owner == x.user && login.from == x.created && login.until == x.expires
       && login.changesRead <= login.changesInserted <= ChangesOf(h.changes, x.user)
       && (x.revoked.Some? <==> token in revocations || login.changesInserted < ChangesOf(h.changes, x.user))
  }

  ghost predicate LoginsKnown(sessions: map<Token, Session>, revocations: seq<Token>, h: History) {
    forall token | token in sessions :: LoginKnown(token, sessions[token], revocations, h)
  }

  ghost predicate LoggingInKnown(works: map<Op, Work>, h: History) {
    forall op | op in works && works[op].LoggingIn? :: works[op].changesRead <= ChangesOf(h.changes, works[op].login)
  }

  ghost predicate LoginPart(s: State) {
    LoginsKnown(s.tables.sessions, s.tables.revocations, s.history) && LoggingInKnown(s.works, s.history)
  }

  ghost predicate Inv(s: State) {
    && Sound(s.tables) && s.clock > 0
    && EnrollmentPart(s) && SessionPart(s) && LoginPart(s)
  }

  lemma StepKeepsSound(s: State, a: Action)
    requires Enabled(s, a) && Sound(s.tables)
    ensures Sound(Apply(s, a).tables)
  {
    hide ActiveAdmins, UsernameTaken, OwnsMedia, GrantsWithout, SessionsWithout, AllRevoked, SessionsOf, HasActiveAdmin;
    match a
    case CreateUser(id, user) => CreateKeepsSound(s.tables, id, user);
    case WriteUser(op) => UpdateKeepsSound(s.tables, s.works[op].id, Wanted(s.works[op].copy, s.works[op].change));
    case DeleteUser(_, id) => DeleteKeepsSound(s.tables, id);
    case _ =>
  }

  ghost predicate EnrollmentPart(s: State) {
    EnrollmentsKnown(s.tables.enrollments, s.history) && WorksKnown(s.works, s.history) && ConsumedKnown(s.history)
  }

  predicate AboutEnrollments(a: Action) {
    a.DeleteUser? || a.IssueEnrollment? || a.ReadEnrollment? || a.CompleteEnrollment?
  }

  lemma OthersKeepEnrollments(s: State, a: Action)
    requires Enabled(s, a) && EnrollmentPart(s) && !AboutEnrollments(a)
    ensures EnrollmentPart(Apply(s, a))
  {
    hide UpdateOutcome, CreateOutcome, GoesAhead, Resolves, RevokeOutcome, ChangeOutcome, GrantsWithout, AllRevoked,
      SessionsOf, ChangesOf, EnrollmentsKnown;
    var s' := Apply(s, a);
    var h, h' := s.history, s'.history;
    assert s'.tables.enrollments == s.tables.enrollments;
    assert h'.issued == h.issued && h'.latest == h.latest && h'.consumed == h.consumed;
    assert EnrollmentsKnown(s'.tables.enrollments, h') by {
      SameEnrollments(s.tables.enrollments, h, h');
    }
  }

  lemma SameEnrollments(enrollments: map<UserId, Enrollment>, h: History, h': History)
    requires EnrollmentsKnown(enrollments, h) && h'.issued == h.issued && h'.latest == h.latest &&
               h'.consumed == h.consumed
    ensures EnrollmentsKnown(enrollments, h')
  {
  }

  lemma EnrollmentStepsKeepEnrollments(s: State, a: Action)
    requires Enabled(s, a) && EnrollmentPart(s) && AboutEnrollments(a)
    ensures EnrollmentPart(Apply(s, a))
  {
    hide DeleteOutcome, GrantsWithout, SessionsWithout, SaveEnrollmentOutcome;
  }

  lemma StepKeepsEnrollments(s: State, a: Action)
    requires Enabled(s, a) && EnrollmentPart(s)
    ensures EnrollmentPart(Apply(s, a))
  {
    hide Enabled, Apply, EnrollmentPart;
    if AboutEnrollments(a) {
      EnrollmentStepsKeepEnrollments(s, a);
    } else {
      OthersKeepEnrollments(s, a);
    }
  }

  predicate AboutSessions(a: Action) {
    || a.DeleteUser? || a.ChangePassword? || a.ReadCredential? || a.CreateSession? || a.ReadSession? || a.TouchSession?
    || a.Revoke?
  }

  /** The other actions leave the session rows, their events and their history alone. */
  lemma OthersLeaveSessions(s: State, a: Action)
    requires Enabled(s, a) && !AboutSessions(a)
    ensures var s' := Apply(s, a);
            && s'.tables.sessions == s.tables.sessions && s'.tables.revocations == s.tables.revocations
            && s'.history.lastUse == s.history.lastUse && s'.history.ended == s.history.ended
            && s'.history.logins == s.history.logins && s'.history.changes == s.history.changes && s'.clock >= s.clock
            && (forall op | op in s'.works && (s'.works[op].Touching? || s'.works[op].LoggingIn?) ::
                  op in s.works && s'.works[op] == s.works[op])
  {
    hide UpdateOutcome, CreateOutcome, GoesAhead, SaveEnrollmentOutcome, CompleteOutcome, Holds, IsValidAt;
  }

  lemma OthersKeepSessions(s: State, a: Action)
    requires Enabled(s, a) && SessionPart(s) && LoginPart(s) && !AboutSessions(a)
    ensures SessionPart(Apply(s, a)) && LoginPart(Apply(s, a))
  {
    hide Enabled, Apply;
    OthersLeaveSessions(s, a);
  }

  lemma DeletionKeepsSessions(s: State, actor: UserId, id: UserId)
    requires Enabled(s, DeleteUser(actor, id)) && SessionPart(s) && LoginPart(s)
    ensures SessionPart(Apply(s, DeleteUser(actor, id))) && LoginPart(Apply(s, DeleteUser(actor, id)))
  {
    hide DeleteOutcome, LoginKnown;
  }

  lemma PasswordChangeKeepsSessions(s: State, id: UserId, hash: string, at: Time)
    requires Enabled(s, ChangePassword(id, hash, at)) && SessionPart(s)
    ensures SessionPart(Apply(s, ChangePassword(id, hash, at)))
  {
  }

  lemma PasswordChangeKeepsLogins(s: State, id: UserId, hash: string, at: Time)
    requires Enabled(s, ChangePassword(id, hash, at)) && LoginPart(s)
    ensures LoginPart(Apply(s, ChangePassword(id, hash, at)))
  {
    var s' := Apply(s, ChangePassword(id, hash, at));
    forall token | token in s'.tables.sessions
      ensures LoginKnown(token, s'.tables.sessions[token], s'.tables.revocations, s'.history)
    {
      assert LoginKnown(token, s.tables.sessions[token], s.tables.revocations, s.history);
    }
  }

  lemma LoginStepsKeepSessions(s: State, a: Action)
    requires Enabled(s, a) && SessionPart(s) && LoginPart(s) && (a.ReadCredential? || a.CreateSession?)
    ensures SessionPart(Apply(s, a)) && LoginPart(Apply(s, a))
  {
    var s' := Apply(s, a);
    forall token | token in s'.tables.sessions
      ensures LoginKnown(token, s'.tables.sessions[token], s'.tables.revocations, s'.history)
    {
      if token in s.tables.sessions {
        assert LoginKnown(token, s.tables.sessions[token], s.tables.revocations, s.history);
      }
    }
  }

  lemma LookKeepsSessions(s: State, op: Op, token: Token)
    requires Enabled(s, ReadSession(op, token)) && SessionPart(s) && LoginPart(s) && s.clock > 0
    ensures SessionPart(Apply(s, ReadSession(op, token)))
  {
    assert LoginKnown(token, s.tables.sessions[token], s.tables.revocations, s.history);
  }

  lemma TouchKeepsSessions(s: State, op: Op)
    requires Enabled(s, TouchSession(op)) && SessionPart(s)
    ensures SessionPart(Apply(s, TouchSession(op)))
  {
  }

  lemma RevocationKeepsSessions(s: State, token: Token, at: Time)
    requires Enabled(s, Revoke(token, at)) && SessionPart(s)
    ensures SessionPart(Apply(s, Revoke(token, at)))
  {
  }

  lemma SessionStepsKeepLogins(s: State, a: Action)
    requires Enabled(s, a) && LoginPart(s) && (a.ReadSession? || a.TouchSession? || a.Revoke?)
    ensures LoginPart(Apply(s, a))
  {
    var s' := Apply(s, a);
    forall token | token in s'.tables.sessions
      ensures LoginKnown(token, s'.tables.sessions[token], s'.tables.revocations, s'.history)
    {
      assert LoginKnown(token, s.tables.sessions[token], s.tables.revocations, s.history);
    }
  }

  lemma StepKeepsSessions(s: State, a: Action)
    requires Enabled(s, a) && SessionPart(s) && LoginPart(s) && s.clock > 0
    ensures SessionPart(Apply(s, a)) && LoginPart(Apply(s, a))
  {
    hide Enabled, Apply, SessionPart, LoginPart;
    match a
    case DeleteUser(actor, id) => DeletionKeepsSessions(s, actor, id);
    case ChangePassword(id, hash, at) =>
      PasswordChangeKeepsSessions(s, id, hash, at);
      PasswordChangeKeepsLogins(s, id, hash, at);
    case ReadCredential(_, _) => LoginStepsKeepSessions(s, a);
    case CreateSession(_, _, _, _) => LoginStepsKeepSessions(s, a);
    case ReadSession(op, token) =>
      LookKeepsSessions(s, op, token);
      SessionStepsKeepLogins(s, a);
    case TouchSession(op) =>
      TouchKeepsSessions(s, op);
      SessionStepsKeepLogins(s, a);
    case Revoke(token, at) =>
      RevocationKeepsSessions(s, token, at);
      SessionStepsKeepLogins(s, a);
    case _ => OthersKeepSessions(s, a);
  }

  lemma StepKeepsInv(s: State, a: Action)
    requires Inv(s) && Enabled(s, a)
    ensures Inv(Apply(s, a))
  {
    hide Sound, EnrollmentsKnown, WorksKnown, ConsumedKnown, SessionPart, LoginPart, Apply, Enabled;
    StepKeepsSound(s, a);
    StepKeepsEnrollments(s, a);
    StepKeepsSessions(s, a);
    ClockStays(s, a);
  }

  lemma {:induction false} RunKeepsInv(start: State, actions: seq<Action>)
    requires Inv(start) && RunFrom(start, actions).At?
    ensures Inv(RunFrom(start, actions).state)
  {
    hide Inv, Apply;
    if actions != [] {
      var before, a := actions[..|actions| - 1], actions[|actions| - 1];
      RunKeepsInv(start, before);
      var s := RunFrom(start, before).state;
      StepKeepsInv(s, a);
    }
  }

  lemma ClockStays(s: State, a: Action)
    requires Enabled(s, a)
    ensures Apply(s, a).clock >= s.clock && Apply(s, a).idleTimeout == s.idleTimeout
  {
  }

  lemma InitialInv(f: Founder)
    ensures Inv(Initial(f))
  {
    BootstrapIsSound(f.id, f.username, f.hash);
  }

  lemma ReachableInv(f: Founder, actions: seq<Action>)
    requires Run(f, actions).At?
    ensures Inv(Run(f, actions).state)
  {
    InitialInv(f);
    RunKeepsInv(Initial(f), actions);
  }

  // ----- users -----

  /** Although updates are computed from stale copies, an active administrator remains; so the archive
      can never be bootstrapped again. */
  lemma AlwaysAnActiveAdministrator(f: Founder, actions: seq<Action>)
    requires Run(f, actions).At?
    ensures HasActiveAdmin(Run(f, actions).state.tables.users)
    ensures BootstrapOutcome(Run(f, actions).state.tables) == AlreadyBootstrapped
  {
    ReachableInv(f, actions);
  }

  // ----- enrollments -----

  lemma EnrollmentOrCredential(f: Founder, actions: seq<Action>, id: UserId)
    requires Run(f, actions).At?
    ensures var t := Run(f, actions).state.tables;
            !(id in t.enrollments && id in t.credentials) &&
              (id in t.enrollments || id in t.credentials ==> id in t.users)
  {
    ReachableInv(f, actions);
  }

  /** A completion that commits uses the latest token issued to its user, for the first time, within
      its lifetime on the service's clock; the user had no credential and then has this one and no
      enrollment. */
  lemma CompletionsAreSound(f: Founder, actions: seq<Action>, op: Op, hash: string)
    requires Run(f, actions).At? && Enabled(Run(f, actions).state, CompleteEnrollment(op, hash))
    ensures var s, s' := Run(f, actions).state, Apply(Run(f, actions).state, CompleteEnrollment(op, hash));
            var w := s.works[op];
            var token := w.read.token;
            && token in s.history.issued && s.history.issued[token] == Issue(w.user, w.read)
            && w.user in s.history.latest && s.history.latest[w.user] == token
            && token !in s.history.consumed && token in s'.history.consumed
            && w.read.created <= w.now < w.read.expires
            && w.user in s.tables.users && w.user !in s.tables.credentials
            && w.user in s'.tables.credentials && s'.tables.credentials[w.user] == hash &&
                 w.user !in s'.tables.enrollments
  {
    hide SessionsKnown, RevocationsKnown, HasActiveAdmin;
    ReachableInv(f, actions);
  }

  lemma {:induction false} ConsumedStays(start: State, actions: seq<Action>, token: Token)
    requires RunFrom(start, actions).At? && token in start.history.consumed
    ensures token in RunFrom(start, actions).state.history.consumed
  {
    hide Enabled, Apply;
    if actions != [] {
      var before := actions[..|actions| - 1];
      ConsumedStays(start, before, token);
      StepKeepsConsumed(RunFrom(start, before).state, actions[|actions| - 1]);
    }
  }

  lemma StepKeepsConsumed(s: State, a: Action)
    requires Enabled(s, a)
    ensures s.history.consumed <= Apply(s, a).history.consumed
  {
  }

  /** No token creates two credentials, whatever happens between. */
  lemma TokensWorkOnce(f: Founder, actions: seq<Action>, op: Op, hash: string, between: seq<Action>, op': Op,
        hash': string)
    requires Run(f, actions).At? && Enabled(Run(f, actions).state, CompleteEnrollment(op, hash))
    requires RunFrom(Apply(Run(f, actions).state, CompleteEnrollment(op, hash)), between).At?
    requires Enabled(RunFrom(Apply(Run(f, actions).state, CompleteEnrollment(op, hash)), between).state,
               CompleteEnrollment(op', hash'))
    ensures RunFrom(Apply(Run(f, actions).state, CompleteEnrollment(op, hash)), between).state.works[op'].read.token
            != Run(f, actions).state.works[op].read.token
  {
    hide SessionsKnown, RevocationsKnown, HasActiveAdmin, Sound;
    var s := Run(f, actions).state;
    var a := CompleteEnrollment(op, hash);
    var s' := Apply(s, a);
    ReachableInv(f, actions);
    StepKeepsInv(s, a);
    RunKeepsInv(s', between);
    CompletionsAreSound(f, actions, op, hash);
    ConsumedStays(s', between, s.works[op].read.token);
    var later := RunFrom(s', between).state;
    assert EnrollmentsKnown(later.tables.enrollments, later.history);
  }

  // ----- sessions -----

  /** The look at a session that a Touch follows up is in the run. */
  lemma {:induction false} TouchFollowsALook(f: Founder, actions: seq<Action>, op: Op) returns (n: nat)
    requires Run(f, actions).At? && op in Run(f, actions).state.works && Run(f, actions).state.works[op].Touching?
    ensures n < |actions| && Run(f, actions[..n]).At?
    ensures var s, w := Run(f, actions[..n]).state, Run(f, actions).state.works[op];
            actions[n] == ReadSession(op, w.session) && s.clock == w.seen &&
              Resolves(s.tables, w.session, w.seen, f.idleTimeout)
  {
    hide Apply, Enabled, Resolves;
    var before, a := actions[..|actions| - 1], actions[|actions| - 1];
    var s := Run(f, before).state;
    LookOrWaiting(s, a, op);
    if a == ReadSession(op, Run(f, actions).state.works[op].session) {
      n := |before|;
      IdleTimeoutStays(Initial(f), before);
    } else {
      n := TouchFollowsALook(f, before, op);
      assert actions[..n] == before[..n];
    }
  }

  lemma LookOrWaiting(s: State, a: Action, op: Op)
    requires Enabled(s, a) && op in Apply(s, a).works && Apply(s, a).works[op].Touching?
    ensures var w := Apply(s, a).works[op];
            || (a == ReadSession(op, w.session) && w.seen == s.clock &&
                 Resolves(s.tables, w.session, w.seen, s.idleTimeout))
            || (a != ReadSession(op, w.session) && op in s.works && s.works[op] == w)
  {
    hide UpdateOutcome, CreateOutcome, DeleteOutcome, GoesAhead, ChangeOutcome, SaveEnrollmentOutcome, CompleteOutcome,
      Holds, IsValidAt, Resolves, SessionsOf, ChangesOf, GrantsWithout, SessionsWithout, AllRevoked;
  }

  /** A successful Resolve.  When it looked, the user was active, the session neither revoked nor ended
      by a password change, and less than the idle timeout had passed since the creation or the last
      Touch, within the lifetime.  When it commits, the session still is not revoked, no password change
      has come since its row was inserted, and its time is within the lifetime of its login. */
  lemma ResolveIsSound(f: Founder, actions: seq<Action>, op: Op) returns (n: nat)
    requires Run(f, actions).At? && Enabled(Run(f, actions).state, TouchSession(op))
    ensures var s := Run(f, actions).state;
            var token, seen := s.works[op].session, s.works[op].seen;
            && token in s.history.logins && token !in s.history.ended
            && var login := s.history.logins[token];
               login.changesInserted == ChangesOf(s.history.changes, login.owner) &&
                 login.from <= seen < login.until && seen <= s.clock
    ensures n < |actions| && Run(f, actions[..n]).At?
    ensures var s, w := Run(f, actions[..n]).state, Run(f, actions).state.works[op];
            && w.session in s.tables.sessions && s.clock == w.seen
            && var x := s.tables.sessions[w.session];
               && x.user in s.tables.users && s.tables.users[x.user].active
               && w.session !in s.history.ended
               && w.session in s.history.lastUse && w.seen < s.history.lastUse[w.session] + f.idleTimeout
  {
    hide EnrollmentsKnown, WorksKnown, ConsumedKnown, Sound, Run;
    ReachableInv(f, actions);
    var s := Run(f, actions).state;
    var token := s.works[op].session;
    assert LoginKnown(token, s.tables.sessions[token], s.tables.revocations, s.history);
    n := TouchFollowsALook(f, actions, op);
    ReachableInv(f, actions[..n]);
  }

  /** Which sessions survive: a stored session is revoked if and only if it was revoked singly or its
      row was inserted before the latest password change of its user.  What its login had read does not
      count. */
  lemma RevokedExactly(f: Founder, actions: seq<Action>, token: Token)
    requires Run(f, actions).At? && token in Run(f, actions).state.tables.sessions
    ensures var s := Run(f, actions).state;
            && token in s.history.logins
            && var login, changes := s.history.logins[token],
                 ChangesOf(s.history.changes, s.tables.sessions[token].user);
               && login.owner == s.tables.sessions[token].user && login.changesRead <= login.changesInserted <= changes
               && (s.tables.sessions[token].revoked.Some? <==>
                    token in s.tables.revocations || login.changesInserted < changes)
  {
    hide EnrollmentsKnown, WorksKnown, ConsumedKnown, Sound, SessionPart;
    ReachableInv(f, actions);
    var s := Run(f, actions).state;
    assert LoginKnown(token, s.tables.sessions[token], s.tables.revocations, s.history);
  }

  /** So a login that a password change has overtaken gets a session that works. */
  lemma OvertakenLogin(f: Founder, hash: string, token: Token, lifetime: Time)
    requires f.idleTimeout > 0 && lifetime > 0
    ensures var actions := [ReadCredential(0, f.id), ChangePassword(f.id, hash, 1),
              CreateSession(0, token, 1, lifetime)];
            && Run(f, actions).At? && Enabled(Run(f, actions).state, ReadSession(0, token))
            && var s := Run(f, actions).state;
               token in s.history.logins &&
                 s.history.logins[token].changesRead < s.history.logins[token].changesInserted
  {
    hide Enabled, Apply;
    var actions := [ReadCredential(0, f.id), ChangePassword(f.id, hash, 1), CreateSession(0, token, 1, lifetime)];
    OvertakenSteps(f, hash, token, lifetime);
    RunNext(Initial(f), [], actions[0]);
    RunNext(Initial(f), [actions[0]], actions[1]);
    assert [actions[0]] + [actions[1]] == [actions[0], actions[1]];
    RunNext(Initial(f), [actions[0], actions[1]], actions[2]);
    assert [actions[0], actions[1]] + [actions[2]] == actions;
  }

  lemma OvertakenSteps(f: Founder, hash: string, token: Token, lifetime: Time)
    requires f.idleTimeout > 0 && lifetime > 0
    ensures var s0, a0, a1, a2 := Initial(f), ReadCredential(0, f.id), ChangePassword(f.id, hash, 1),
              CreateSession(0, token, 1, lifetime);
            && Enabled(s0, a0) && Enabled(Apply(s0, a0), a1) && Enabled(Apply(Apply(s0, a0), a1), a2)
            && var s := Apply(Apply(Apply(s0, a0), a1), a2);
               && Enabled(s, ReadSession(0, token))
               && token in s.history.logins &&
                    s.history.logins[token].changesRead < s.history.logins[token].changesInserted
  {
  }

  lemma RunNext(start: State, actions: seq<Action>, a: Action)
    requires RunFrom(start, actions).At?
    ensures RunFrom(start, actions + [a]) == if Enabled(RunFrom(start, actions).state, a) then
              At(Apply(RunFrom(start, actions).state, a)) else Stuck
  {
    hide Enabled, Apply;
    assert (actions + [a])[..|actions|] == actions;
  }

  /** No Resolve succeeds any more: the session is gone, revoked or past its lifetime; or it has been
      idle too long, and so have the looks at it whose Touch is still to come. */
  predicate Dead(s: State, token: Token) {
    token in s.tables.sessions ==>
      var x := s.tables.sessions[token];
      || x.revoked.Some? || s.clock >= x.expires
      || (s.clock >= x.lastSeen + s.idleTimeout
          && forall op | op in s.works && s.works[op].Touching? && s.works[op].session == token ::
               s.clock >= s.works[op].seen + s.idleTimeout)
  }

  lemma TouchKeepsDead(s: State, op: Op, token: Token)
    requires Enabled(s, TouchSession(op)) && Dead(s, token)
    ensures Dead(Apply(s, TouchSession(op)), token)
  {
  }

  lemma LookKeepsDead(s: State, op: Op, t: Token, token: Token)
    requires Enabled(s, ReadSession(op, t)) && Dead(s, token)
    ensures Dead(Apply(s, ReadSession(op, t)), token)
  {
  }

  lemma LoginKeepsDead(s: State, a: Action, token: Token)
    requires Enabled(s, a) && (a.ReadCredential? || a.CreateSession?) && token in s.history.lastUse && Dead(s, token)
    ensures Dead(Apply(s, a), token)
  {
  }

  lemma EndingKeepsDead(s: State, a: Action, token: Token)
    requires Enabled(s, a) && (a.DeleteUser? || a.ChangePassword? || a.Revoke?) && Dead(s, token)
    ensures Dead(Apply(s, a), token)
  {
    hide DeleteOutcome, GrantsWithout, ChangeOutcome, SessionsOf;
  }

  lemma DeadStaysDead(s: State, a: Action, token: Token)
    requires Enabled(s, a) && token in s.history.lastUse && Dead(s, token)
    ensures Dead(Apply(s, a), token)
  {
    hide Enabled, Apply, Dead;
    match a
    case DeleteUser(_, _) => EndingKeepsDead(s, a, token);
    case ChangePassword(_, _, _) => EndingKeepsDead(s, a, token);
    case Revoke(_, _) => EndingKeepsDead(s, a, token);
    case ReadCredential(_, _) => LoginKeepsDead(s, a, token);
    case CreateSession(_, _, _, _) => LoginKeepsDead(s, a, token);
    case ReadSession(op, t) => LookKeepsDead(s, op, t, token);
    case TouchSession(op) => TouchKeepsDead(s, op, token);
    case _ => OthersKeepDead(s, a, token);
  }

  lemma OthersKeepDead(s: State, a: Action, token: Token)
    requires Enabled(s, a) && !AboutSessions(a) && Dead(s, token)
    ensures Dead(Apply(s, a), token)
  {
    hide Enabled, Apply;
    OthersLeaveSessions(s, a);
    ClockStays(s, a);
  }

  lemma KnownStays(s: State, a: Action, token: Token)
    requires Enabled(s, a) && token in s.history.lastUse
    ensures token in Apply(s, a).history.lastUse
  {
  }

  lemma {:induction false} DeadForever(start: State, later: seq<Action>, token: Token)
    requires RunFrom(start, later).At? && token in start.history.lastUse && Dead(start, token)
    ensures Dead(RunFrom(start, later).state, token) && token in RunFrom(start, later).state.history.lastUse
  {
    hide Apply, Enabled, Dead;
    if later != [] {
      var before := later[..|later| - 1];
      DeadForever(start, before, token);
      DeadStaysDead(RunFrom(start, before).state, later[|later| - 1], token);
      KnownStays(RunFrom(start, before).state, later[|later| - 1], token);
    }
  }

  ghost predicate RefusedEverAfter(s: State, token: Token) {
    forall later, op :: RunFrom(s, later).At? ==> !Enabled(RunFrom(s, later).state, ReadSession(op, token))
  }

  lemma DeadIsNotFound(s: State, op: Op, token: Token)
    requires SessionPart(s) && Dead(s, token)
    ensures !Enabled(s, ReadSession(op, token))
  {
  }

  lemma DeadIsRefused(s: State, token: Token)
    requires Inv(s) && Dead(s, token) && token in s.history.lastUse
    ensures RefusedEverAfter(s, token)
  {
    hide Dead, SessionPart, LoginPart, Enabled, Apply, Sound, RunFrom;
    forall later, op | RunFrom(s, later).At?
      ensures !Enabled(RunFrom(s, later).state, ReadSession(op, token))
    {
      DeadForever(s, later, token);
      RunKeepsInv(s, later);
      DeadIsNotFound(RunFrom(s, later).state, op, token);
    }
  }

  predicate OfActiveUser(s: State, token: Token) {
    && token in s.tables.sessions && s.tables.sessions[token].user in s.tables.users
    && s.tables.users[s.tables.sessions[token].user].active
  }

  /** A look finds the session of an active user valid exactly when it is neither revoked nor past its
      lifetime nor idle too long. */
  lemma FoundExactly(f: Founder, actions: seq<Action>, op: Op, token: Token)
    requires Run(f, actions).At? && f.idleTimeout > 0 && op !in Run(f, actions).state.works
    requires OfActiveUser(Run(f, actions).state, token)
    ensures var s := Run(f, actions).state;
            var x := s.tables.sessions[token];
            Enabled(s, ReadSession(op, token)) <==>
              x.revoked.None? && s.clock < x.expires && s.clock < x.lastSeen + f.idleTimeout
  {
    hide EnrollmentsKnown, WorksKnown, ConsumedKnown, Sound, LoginPart;
    ReachableInv(f, actions);
    IdleTimeoutStays(Initial(f), actions);
  }

  lemma FoundInTime(s: State, op: Op, token: Token)
    requires s.clock > 0 && SessionPart(s) && s.idleTimeout > 0 && OfActiveUser(s, token) && op !in s.works
    requires var x := s.tables.sessions[token];
             x.revoked.None? && s.clock < x.expires &&
             s.clock < x.lastSeen + s.idleTimeout
    ensures Enabled(s, ReadSession(op, token))
  {
  }

  lemma TouchedInTime(s: State, op: Op)
    requires op in s.works && s.works[op].Touching? && s.clock < s.works[op].seen + s.idleTimeout
    requires var token := s.works[op].session;
             && s.clock > 0 && SessionPart(s) && LoginPart(s) && s.idleTimeout > 0 && OfActiveUser(s, token)
             && s.tables.sessions[token].revoked.None? && s.clock < s.tables.sessions[token].expires
    ensures Enabled(s, TouchSession(op)) && Enabled(Apply(s, TouchSession(op)), ReadSession(op, s.works[op].session))
  {
    TouchKeepsSessions(s, op);
    FoundInTime(Apply(s, TouchSession(op)), op, s.works[op].session);
  }

  /** While the session is not dead, it is found valid now or after the Touch that keeps it alive. */
  lemma AliveIsFound(s: State, token: Token)
    requires Inv(s) && !Dead(s, token) && s.idleTimeout > 0 && OfActiveUser(s, token)
    ensures !RefusedEverAfter(s, token)
  {
    hide Sound, EnrollmentsKnown, WorksKnown, ConsumedKnown, SessionPart, LoginPart, Enabled, Apply;
    if s.clock < s.tables.sessions[token].lastSeen + s.idleTimeout {
      var op := Unused(s.works.Keys);
      FoundInTime(s, op, token);
      assert Enabled(RunFrom(s, []).state, ReadSession(op, token));
    } else {
      var op :| op in s.works && s.works[op].Touching? && s.works[op].session == token &&
        s.clock < s.works[op].seen + s.idleTimeout;
      TouchedInTime(s, op);
      RunNext(s, [], TouchSession(op));
      assert Enabled(RunFrom(s, [] + [TouchSession(op)]).state, ReadSession(op, token));
    }
  }

  /** The sessions of an active user that are never resolved again are exactly the dead ones. */
  lemma RefusedEverAfterExactly(f: Founder, actions: seq<Action>, token: Token)
    requires Run(f, actions).At? && f.idleTimeout > 0 && OfActiveUser(Run(f, actions).state, token)
    ensures RefusedEverAfter(Run(f, actions).state, token) <==> Dead(Run(f, actions).state, token)
  {
    hide Dead, RefusedEverAfter, Sound, EnrollmentsKnown, WorksKnown, ConsumedKnown, LoginPart, RevocationsKnown,
      TouchesKnown;
    ReachableInv(f, actions);
    IdleTimeoutStays(Initial(f), actions);
    if Dead(Run(f, actions).state, token) {
      DeadIsRefused(Run(f, actions).state, token);
    } else {
      AliveIsFound(Run(f, actions).state, token);
    }
  }

  lemma NewSessionSteps(f: Founder, token: Token, lifetime: Time)
    requires lifetime > 0
    ensures var s0, login, insert := Initial(f), ReadCredential(0, f.id), CreateSession(0, token, 1, lifetime);
            && Enabled(s0, login) && Enabled(Apply(s0, login), insert)
            && var s := Apply(Apply(s0, login), insert);
               && s.works == map[] && s.clock == 1 && s.idleTimeout == f.idleTimeout
               && OfActiveUser(s, token) && s.tables.sessions[token] == NewSession(f.id, 1, lifetime)
  {
  }

  lemma RevivalSteps(s: State, user: UserId, token: Token, lifetime: Time)
    requires s.works == map[] && s.clock == 1 && s.idleTimeout > 1 && lifetime > s.idleTimeout
    requires OfActiveUser(s, token) && s.tables.sessions[token] == NewSession(user, 1, lifetime)
    ensures var wait, look, wait', touch := Tick(s.idleTimeout), ReadSession(1, token), Tick(s.idleTimeout + 1),
              TouchSession(1);
            && Enabled(s, wait) && Enabled(Apply(s, wait), look) && Enabled(Apply(Apply(s, wait), look), wait')
            && var s' := Apply(Apply(Apply(s, wait), look), wait');
               && !Enabled(s', ReadSession(2, token)) && Enabled(s', touch) &&
                    Enabled(Apply(s', touch), ReadSession(2, token))
  {
  }

  lemma RunOver(start: State, actions: seq<Action>, a: Action, b: Action)
    requires RunFrom(start, actions).At? && Enabled(RunFrom(start, actions).state, a)
    requires Enabled(Apply(RunFrom(start, actions).state, a), b)
    ensures RunFrom(start, actions + [a, b]) == At(Apply(Apply(RunFrom(start, actions).state, a), b))
  {
    hide Enabled, Apply;
    RunNext(start, actions, a);
    RunNext(start, actions + [a], b);
    assert actions + [a] + [b] == actions + [a, b];
  }

  /** An idle session need not be dead when it is refused: here a Touch that was on its way brings it
      back. */
  lemma RefusedAndRevived(f: Founder, token: Token, lifetime: Time) returns (actions: seq<Action>)
    requires f.idleTimeout > 1 && lifetime > f.idleTimeout
    ensures Run(f, actions).At? && !Enabled(Run(f, actions).state, ReadSession(2, token))
    ensures Run(f, actions + [TouchSession(1)]).At?
    ensures Enabled(Run(f, actions + [TouchSession(1)]).state, ReadSession(2, token))
  {
    hide Enabled, Apply, RunFrom, Initial, OfActiveUser;
    var s0 := Initial(f);
    NewSessionSteps(f, token, lifetime);
    RunFromNothing(s0);
    RunOver(s0, [], ReadCredential(0, f.id), CreateSession(0, token, 1, lifetime));
    actions := [] + [ReadCredential(0, f.id), CreateSession(0, token, 1, lifetime)];
    RevivalSteps(RunFrom(s0, actions).state, f.id, token, lifetime);
    RunOver(s0, actions, Tick(f.idleTimeout), ReadSession(1, token));
    actions := actions + [Tick(f.idleTimeout), ReadSession(1, token)];
    RunNext(s0, actions, Tick(f.idleTimeout + 1));
    actions := actions + [Tick(f.idleTimeout + 1)];
    RunNext(s0, actions, TouchSession(1));
  }

  lemma RunFromNothing(s: State)
    ensures RunFrom(s, []) == At(s)
  {
  }

  lemma {:induction false} IdleTimeoutStays(start: State, actions: seq<Action>)
    requires RunFrom(start, actions).At?
    ensures RunFrom(start, actions).state.idleTimeout == start.idleTimeout
  {
    hide Enabled, Apply;
    if actions != [] {
      IdleTimeoutStays(start, actions[..|actions| - 1]);
      ClockStays(RunFrom(start, actions[..|actions| - 1]).state, actions[|actions| - 1]);
    }
  }

  /** Each session gets at most one session.revoked event. */
  lemma OneRevocationEvent(f: Founder, actions: seq<Action>, i: nat, j: nat)
    requires Run(f, actions).At? && i < j < |Run(f, actions).state.tables.revocations|
    ensures Run(f, actions).state.tables.revocations[i] != Run(f, actions).state.tables.revocations[j]
  {
    ReachableInv(f, actions);
  }
}
