/** The sequential identity services are runs of IdentityRuns: what a service does by itself, with any
    reply, is what one operation does there step by step, from every reachable state. */
module IdentityServiceRuns {
  import opened Options
  import opened IdentityTables
  import opened IdentityDatabase
  import opened IdentityRuns
  import S = IdentityServices

  /** One operation takes these steps, one after the other. */
  lemma TwoSteps(s: State, a: Action, b: Action)
    requires Enabled(s, a) && Enabled(Apply(s, a), b)
    ensures RunFrom(s, [a, b]) == At(Apply(Apply(s, a), b))
  {
    hide Enabled, Apply;
    RunFromNothing(s);
    RunOver(s, [], a, b);
    assert [] + [a, b] == [a, b];
  }

  lemma OneStep(s: State, a: Action)
    requires Enabled(s, a)
    ensures RunFrom(s, [a]) == At(Apply(s, a))
  {
    hide Enabled, Apply;
    RunFromNothing(s);
    RunNext(s, [], a);
    assert [] + [a] == [a];
  }

  lemma ChangeUserIsARun(s: State, op: Op, actor: UserId, id: UserId, change: Change, r: S.Reply, t': Tables)
    returns (steps: seq<Action>)
    requires op !in s.works && S.ChangeEffect(s.tables, actor, id, change, r, t')
    ensures RunFrom(s, steps) == At(s.(tables := t'))
  {
    hide UpdateOutcome;
    if r == S.Done {
      steps := [ReadUser(op, actor, id, change), WriteUser(op)];
      TwoSteps(s, steps[0], steps[1]);
      assert s.works[op := Updating(actor, id, s.tables.users[id], change)] - {op} == s.works;
    } else {
      steps := [];
    }
  }

  lemma DeleteUserIsARun(s: State, actor: UserId, id: UserId, r: S.Reply, t': Tables) returns (steps: seq<Action>)
    requires S.DeleteEffect(s.tables, actor, id, r, t')
    ensures RunFrom(s, steps) == At(s.(tables := t'))
  {
    hide DeleteOutcome;
    if r == S.Done {
      steps := [DeleteUser(actor, id)];
      OneStep(s, steps[0]);
    } else {
      steps := [];
    }
  }

  /** Tokens are fresh, and the service's time is one that the clock has shown. */
  lemma IssueEnrollmentIsARun(s: State, id: UserId, token: Token, now: Time, lifetime: Time, r: S.Reply, t': Tables)
    returns (steps: seq<Action>)
    requires S.IssueEffect(s.tables, id, token, now, lifetime, r, t') && token !in s.history.issued && Past(s, now)
    ensures RunFrom(s, steps).At? && RunFrom(s, steps).state.tables == t' && RunFrom(s, steps).state.works == s.works
    ensures r == S.Done ==>
              id in RunFrom(s, steps).state.history.latest &&
              RunFrom(s, steps).state.history.latest[id] == token
  {
    hide SaveEnrollmentOutcome;
    if r == S.Done {
      steps := [IssueEnrollment(id, Enrollment(token, now, now + lifetime))];
      OneStep(s, steps[0]);
    } else {
      steps := [];
    }
  }

  lemma CompletionSteps(s: State, op: Op, id: UserId, token: Token, hash: string)
    requires op !in s.works && Holds(s.tables.enrollments, id, token) && IsValidAt(s.tables.enrollments[id], s.clock)
    requires id !in s.tables.credentials
    ensures Enabled(s, ReadEnrollment(op, id, token))
    ensures var s1 := Apply(s, ReadEnrollment(op, id, token));
            && Enabled(s1, CompleteEnrollment(op, hash))
            && var s2 := Apply(s1, CompleteEnrollment(op, hash));
               && s2.tables == Completed(s.tables, id, hash) && s2.works == s.works
               && s2.history.consumed == s.history.consumed + {token}
  {
    assert Holds(s.tables.enrollments, id, token) && CompleteOutcome(s.tables, Some(id), id, s.clock) == Committed;
    assert s.works[op := Completing(id, s.tables.enrollments[id], s.clock)] - {op} == s.works;
  }

  lemma CompleteEnrollmentIsARun(s: State, op: Op, holder: Option<UserId>, token: Token, hash: string, r: S.Reply,
        t': Tables)
    returns (steps: seq<Action>)
    requires op !in s.works && S.CompleteEffect(s.tables, holder, token, hash, s.clock, r, t')
    ensures RunFrom(s, steps).At? && RunFrom(s, steps).state.tables == t' && RunFrom(s, steps).state.works == s.works
    ensures r == S.Done ==> RunFrom(s, steps).state.history.consumed == s.history.consumed + {token}
  {
    hide Enabled, Apply;
    if r == S.Done {
      var id := holder.value;
      steps := [ReadEnrollment(op, id, token), CompleteEnrollment(op, hash)];
      CompletionSteps(s, op, id, token, hash);
      TwoSteps(s, steps[0], steps[1]);
    } else {
      steps := [];
    }
  }

  lemma RevokeSessionIsARun(s: State, token: Token, now: Time, r: S.Reply, t': Tables) returns (steps: seq<Action>)
    requires S.RevokeEffect(s.tables, token, now, r, t') && Past(s, now)
    ensures RunFrom(s, steps).At? && RunFrom(s, steps).state.tables == t' && RunFrom(s, steps).state.works == s.works
  {
    if r == S.Done && RevokeOutcome(s.tables, token) == Committed {
      steps := [Revoke(token, now)];
      OneStep(s, steps[0]);
    } else {
      steps := [];
    }
  }

  lemma ResolveIsARun(s: State, op: Op, token: Token) returns (steps: seq<Action>)
    requires op !in s.works && Resolves(s.tables, token, s.clock, s.idleTimeout)
    requires s.tables.sessions[token].revoked.None?
    ensures RunFrom(s, steps).At? && RunFrom(s, steps).state.tables == Touched(s.tables, token, s.clock)
    ensures RunFrom(s, steps).state.works == s.works
  {
    steps := [ReadSession(op, token), TouchSession(op)];
    TwoSteps(s, steps[0], steps[1]);
    assert s.works[op := Touching(token, s.clock)] - {op} == s.works;
  }

  /** What CompleteEnrollment asks of the database holds in every run. */
  lemma ServicesMayRun(f: Founder, actions: seq<Action>)
    requires Run(f, actions).At?
    ensures Sound(Run(f, actions).state.tables) && S.TokensUnique(Run(f, actions).state.tables.enrollments)
  {
    ReachableInv(f, actions);
  }
}
