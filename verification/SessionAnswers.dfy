/** What the session store answers, told by what the answered tokens are then good for
    (services/api/internal/auth/session.go:50-157). */
module SessionAnswers {
  import opened Wrappers
  import opened Sessions
  import opened SessionRuns
  import opened SessionTheorems

  /** The pair, answered at now, is what its user can use: the access token authenticates the user until the expiry
      stated for it, fifteen minutes on, and nothing else; the refresh token is accepted for rotation until the expiry
      stated for it, thirty days on, and does not authenticate. */
  ghost predicate Usable(after: State, pair: TokenPair, user: string, now: int)
  {
    && pair.accessExpiresAt == now + 900_000_000_000
    && pair.refreshExpiresAt == now + 2_592_000_000_000_000
    && (forall t :: Authenticate(after, pair.access, Access, t) == if t < pair.accessExpiresAt then Some(user)
          else None)
    && (forall t :: Authenticate(after, pair.refresh, Access, t) == None)
    && (forall draws, t, later :: RotationAnswered(after, pair.refresh, draws, t, later, user) <==>
          t < pair.refreshExpiresAt && AllDrawn(draws))
    && (forall draws, t, later :: !RotationAnswered(after, pair.access, draws, t, later, user))
  }

  ghost predicate RotationAnswered(s: State, token: Token, draws: Draws, now: int, later: int, user: string)
  {
    var r := Rotate(s, token, draws, now, later).1;
    r.Some? && r.value.1 == user
  }

  /** Drawn tokens have the shape of a token. */
  predicate WellDrawn(draws: Draws)
  {
    (draws.access.Some? ==> Hashable(draws.access.value)) && (draws.refresh.Some? ==> Hashable(draws.refresh.value))
  }

  /** Two stored tokens of one user and one time make a usable pair. */
  lemma StoredPairUsable(after: State, pair: TokenPair, user: string, family: Token, now: int)
    requires Hashable(pair.access) && Hashable(pair.refresh)
    requires pair.accessExpiresAt == now + 900_000_000_000 && pair.refreshExpiresAt == now + 2_592_000_000_000_000
    requires pair.access in after.sessions && pair.refresh in after.sessions
    requires after.sessions[pair.access] == Session(user, family, pair.accessExpiresAt, Access)
    requires after.sessions[pair.refresh] == Session(user, family, pair.refreshExpiresAt, Refresh)
    ensures Usable(after, pair, user, now)
  {
    hide Hashable, Rotate;
    forall draws, t, later
      ensures RotationAnswered(after, pair.refresh, draws, t, later, user) <==>
              t < pair.refreshExpiresAt && AllDrawn(draws)
      ensures !RotationAnswered(after, pair.access, draws, t, later, user)
    {
      RotateAnswers(after, pair.refresh, draws, t, later);
      RotateAnswers(after, pair.access, draws, t, later);
    }
  }

  /** An issue answers exactly for a named user when every draw succeeds, and then with a usable pair. */
  lemma IssueAnswersExactly(s: State, user: string, draws: Draws, now: int)
    requires Inv(s) && FreshFor(s, draws) && WellDrawn(draws)
    ensures var (after, r) := Issue(s, user, draws, now);
            && (r.Some? <==> user != "" && AllDrawn(draws))
            && (r.Some? ==> Usable(after, r.value, user, now))
  {
    hide Hashable, Usable, Inv, FreshFor;
    var (after, r) := Issue(s, user, draws, now);
    if r.Some? {
      IssueTokenwise(s, user, draws, now, r.value.access);
      IssueTokenwise(s, user, draws, now, r.value.refresh);
      assert IssuesToken(draws, r.value.access, Access) && IssuesToken(draws, r.value.refresh, Refresh);
      StoredPairUsable(after, r.value, user, draws.family.value, now);
    }
  }

  /** So it is for a rotation, whose lifetimes count from the clock at which the new pair is made. */
  lemma RotationAnswersUsable(s: State, token: Token, draws: Draws, now: int, later: int)
    requires Inv(s) && FreshFor(s, draws) && WellDrawn(draws)
    ensures var (after, r) := Rotate(s, token, draws, now, later);
            r.Some? ==> Usable(after, r.value.0, r.value.1, later)
  {
    hide Hashable, Usable, Inv, FreshFor, Rotate;
    RotateAnswers(s, token, draws, now, later);
    RotateExpiries(s, token, draws, now, later);
    var (after, r) := Rotate(s, token, draws, now, later);
    if r.Some? {
      RotateTokenwise(s, token, draws, now, later, draws.access.value);
      RotateTokenwise(s, token, draws, now, later, draws.refresh.value);
      assert IssuesToken(draws, draws.access.value, Access) && IssuesToken(draws, draws.refresh.value, Refresh);
      StoredPairUsable(after, r.value.0, r.value.1, draws.family.value, later);
    }
  }

  lemma RotateExpiries(s: State, token: Token, draws: Draws, now: int, later: int)
    ensures var r := Rotate(s, token, draws, now, later).1;
            r.Some? ==> r.value.0.accessExpiresAt == later + 900_000_000_000
                        && r.value.0.refreshExpiresAt == later + 2_592_000_000_000_000
  {
    hide Hashable, RevokeFamily, RevokeUser, Put;
  }

  /** Over every history: what a call answers is usable right after it, for the user it was made for. */
  lemma AnswersUsable(h: seq<Event>, n: nat)
    requires Fresh(h) && n < |h| && !h[n].Revoking?
    ensures h[n].Issuing? ==>
              var r := Issue(Run(h, n), h[n].user, h[n].draws, h[n].now).1;
              && (r.Some? <==> h[n].user != "" && AllDrawn(h[n].draws))
              && (r.Some? ==> Usable(Run(h, n + 1), r.value, h[n].user, h[n].now))
    ensures h[n].Rotating? && Answer(h, n).Some? ==>
              Usable(Run(h, n + 1), Answer(h, n).value.0, Answer(h, n).value.1, h[n].later)
  {
    RunLinked(h, n);
    DrawsAreFresh(h, n);
    DrawsWellFormed(h, n);
    hide Linked, Fresh, Usable, FreshFor, Issue, Rotate, WellDrawn;
    if h[n].Issuing? {
      IssueAnswersExactly(Run(h, n), h[n].user, h[n].draws, h[n].now);
    } else {
      RotationAnswersUsable(Run(h, n), h[n].token, h[n].draws, h[n].now, h[n].later);
    }
  }

  lemma DrawsWellFormed(h: seq<Event>, n: nat)
    requires Fresh(h) && n < |h|
    ensures WellDrawn(DrawsOf(h[n]))
  {
    var d := DrawsOf(h[n]);
    assert d.access.Some? ==> DrawsToken(h[n], d.access.value);
    assert d.refresh.Some? ==> DrawsToken(h[n], d.refresh.value);
    hide Hashable;
  }
}
