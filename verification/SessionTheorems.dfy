/** What the session store promises over every history. */
module SessionTheorems {
  import opened Wrappers
  import opened Sessions
  import opened SessionRuns

  function Answer(h: seq<Event>, n: nat): Option<(TokenPair, string)>
    requires n < |h| && h[n].Rotating?
  {
    Rotate(Run(h, n), h[n].token, h[n].draws, h[n].now, h[n].later).1
  }

  /** An access token is good for u exactly when it was issued to u less than fifteen minutes ago and since then none
      of its family's tokens was presented for rotation, no spent token of u was presented, and u was not revoked. */
  lemma AuthenticatesExactly(h: seq<Event>, n: nat, token: Token, now: int, u: string)
    requires Fresh(h) && n <= |h|
    ensures Authenticate(Run(h, n), token, Access, now) == Some(u) <==>
            exists i: nat :: i < n && Issues(h, i, token, Access) && ActsFor(h, i, u) && Alive(h, i, n)
                             && now < IssueTime(h[i]) + 15 * 60 * 1_000_000_000
  {
    RunLinked(h, n);
    hide Run, ActsFor, Alive, Inv;
    var s := Run(h, n);
    if Authenticate(s, token, Access, now) == Some(u) {
      var i: nat, kind :| Live(h, n, token, i, kind);
      assert Records(h, i, kind, s.sessions[token]);
    }
    if i: nat :| i < n && Issues(h, i, token, Access) && ActsFor(h, i, u) && Alive(h, i, n)
                 && now < IssueTime(h[i]) + 15 * 60 * 1_000_000_000
    {
      assert Live(h, n, token, i, Access) && DrawsToken(h[i], token);
      OneUser(h, i, u, s.sessions[token].user);
    }
  }

  /** A rotation is answered exactly when the token was issued as a refresh token less than thirty days ago, its family
      was never ended, and the random source worked. */
  lemma AnsweredExactly(h: seq<Event>, n: nat)
    requires Fresh(h) && n < |h| && h[n].Rotating?
    ensures Answer(h, n).Some? <==>
            (exists u :: ActsFor(h, n, u)) && AllDrawn(h[n].draws)
    ensures Answer(h, n).Some? ==> ActsFor(h, n, Answer(h, n).value.1)
  {
    hide Run, ActsFor, Hashable, Linked, Rotate, Accepts, Fresh;
    RunLinked(h, n);
    AcceptsExactly(h, n);
    RotateAnswers(Run(h, n), h[n].token, h[n].draws, h[n].now, h[n].later);
  }

  /** Over a whole history a refresh token is rotated at most once. */
  lemma RotatesOnce(h: seq<Event>, m: nat, n: nat)
    requires Fresh(h) && m < n < |h| && h[m].Rotating? && h[n].Rotating? && h[m].token == h[n].token
    ensures !(Answer(h, m).Some? && Answer(h, n).Some?)
  {
    AnsweredExactly(h, m);
    AnsweredExactly(h, n);
    hide Answer, Alive, Fresh;
    if Answer(h, m).Some? && Answer(h, n).Some? {
      RunLinked(h, n);
      AcceptsExactly(h, n);
      assert Spends(h, m, h[n].token, Answer(h, m).value.1);
      assert false;
    }
  }

  /** A successful rotation swaps one family for one new family of the same user; every other session stays. */
  lemma SuccessReplacesOneFamily(h: seq<Event>, n: nat, t: Token)
    requires Fresh(h) && n < |h| && h[n].Rotating? && Answer(h, n).Some?
    ensures var s, after, x, (pair, user) := Run(h, n), Run(h, n + 1), h[n].token, Answer(h, n).value;
            && x in s.sessions && s.sessions[x].user == user
            && (t in s.sessions ==>
                  if s.sessions[t].family == s.sessions[x].family then t !in after.sessions
                  else t in after.sessions && after.sessions[t] == s.sessions[t])
            && (t in after.sessions && t !in s.sessions <==> t == pair.access || t == pair.refresh)
            && pair.access in after.sessions && pair.refresh in after.sessions
            && after.sessions[pair.access].user == user == after.sessions[pair.refresh].user
            && after.sessions[pair.access].family == after.sessions[pair.refresh].family
            && after.sessions[pair.access].family !in s.families
            && after.sessions[pair.access].kind == Access && after.sessions[pair.refresh].kind == Refresh
  {
    hide Run, ActsFor, Linked, Fresh, Rotate, Hashable, Accepts, Inv;
    RunLinked(h, n);
    AnsweredExactly(h, n);
    AcceptsExactly(h, n);
    DrawsAreFresh(h, n);
    RotateAnswers(Run(h, n), h[n].token, h[n].draws, h[n].now, h[n].later);
    var user, draws := Answer(h, n).value.1, h[n].draws;
    AcceptedStep(h, n, user, t);
    AcceptedStep(h, n, user, draws.access.value);
    AcceptedStep(h, n, user, draws.refresh.value);
    assert IssuesToken(draws, draws.access.value, Access) && IssuesToken(draws, draws.refresh.value, Refresh);
  }

  /** A session that is gone never comes back. */
  lemma GoneForGood(h: seq<Event>, m: nat, n: nat, later: nat, t: Token)
    requires Fresh(h) && m <= n <= later <= |h|
    requires t in Run(h, m).sessions && t !in Run(h, n).sessions
    ensures t !in Run(h, later).sessions
  {
    RunLinked(h, m);
    RunLinked(h, n);
    RunLinked(h, later);
    hide Run, Inv, Issues, Kills, ConsumedLinked, FamiliesDrawn, Records, Fresh;
    var i: nat, a :| Live(h, m, t, i, a);
    assert !Live(h, n, t, i, a);
    if t in Run(h, later).sessions {
      var j: nat, b :| Live(h, later, t, j, b);
      OneIssuer(h, t, i, a, j, b);
    }
  }

  /** Presenting a spent token ends every session of the user it was spent for, in every continuation, leaves every
      other user's sessions alone, and hands out nothing. */
  lemma ReuseRevokesUser(h: seq<Event>, m: nat, n: nat, later: nat, u: string, t: Token)
    requires Fresh(h) && m < n < later <= |h|
    requires h[n].Rotating? && Spends(h, m, h[n].token, u)
    ensures Answer(h, n) == None
    ensures t in Run(h, n).sessions && Run(h, n).sessions[t].user == u ==> t !in Run(h, later).sessions
    ensures t in Run(h, n).sessions && Run(h, n).sessions[t].user != u ==>
              t in Run(h, n + 1).sessions && Run(h, n + 1).sessions[t] == Run(h, n).sessions[t]
    ensures t !in Run(h, n).sessions ==> t !in Run(h, n + 1).sessions
  {
    hide Run, Spends, ActsFor, Fresh, Answer, Indexed, OneUserPerFamily, SessionsLinked, FamiliesDrawn, Hashable;
    RunLinked(h, n);
    var s, x := Run(h, n), h[n].token;
    assert x in s.consumed && s.consumed[x] == u && x !in s.sessions;
    AcceptsExactly(h, n);
    AnsweredExactly(h, n);
    RefusedStep(h, n, t);
    if t in s.sessions && s.sessions[t].user == u {
      GoneForGood(h, n, n + 1, later, t);
    }
  }

  lemma RevokingStep(h: seq<Event>, n: nat)
    requires n < |h| && h[n].Revoking?
    ensures Run(h, n + 1) == RevokeUser(Run(h, n), h[n].user)
  {
    hide RevokeUser;
  }

  /** Revoking a user ends exactly the user's sessions, for good. */
  lemma RevocationIsFinal(h: seq<Event>, n: nat, later: nat, t: Token)
    requires Fresh(h) && n < later <= |h| && h[n].Revoking? && t in Run(h, n).sessions
    ensures Run(h, n).sessions[t].user == h[n].user ==> t !in Run(h, later).sessions
    ensures Run(h, n).sessions[t].user != h[n].user ==>
              t in Run(h, n + 1).sessions && Run(h, n + 1).sessions[t] == Run(h, n).sessions[t]
  {
    hide Run, RevokeUser, Inv, SessionsLinked, ConsumedLinked, FamiliesDrawn, Fresh;
    RunLinked(h, n);
    UserTokenwise(Run(h, n), h[n].user, t);
    RevokingStep(h, n);
    if Run(h, n).sessions[t].user == h[n].user {
      GoneForGood(h, n, n + 1, later, t);
    }
  }

  /** An issue that fails still stores an access session exactly when only its last draw failed: nobody holds it. */
  lemma FailedIssueLeaves(s: State, user: string, draws: Draws, now: int)
    requires Inv(s) && FreshFor(s, draws) && Issue(s, user, draws, now).1 == None
    ensures Issue(s, user, draws, now).0.sessions != s.sessions <==>
            user != "" && draws.family.Some? && draws.access.Some?
  {
    if user != "" && draws.access.Some? {
      IssueTokenwise(s, user, draws, now, draws.access.value);
    }
  }
}
