/** The session store: access and refresh tokens, families, rotation, reuse detection and revocation
    (services/api/internal/auth/session.go). SHA-256 is taken as injective, so a token stands for its own hash. */
module Sessions {
  import opened Wrappers
  import opened Base64

  type Token = string

  datatype Kind = Access | Refresh

  datatype Session = Session(user: string, family: Token, expiresAt: int, kind: Kind)

  datatype State = State(sessions: map<Token, Session>, families: map<Token, set<Token>>, consumed: map<Token, string>)

  datatype TokenPair = TokenPair(access: Token, refresh: Token, accessExpiresAt: int, refreshExpiresAt: int)

  const EMPTY := State(map[], map[], map[])

  const ACCESS_LIFETIME := 15 * 60 * 1_000_000_000
  const REFRESH_LIFETIME := 30 * 24 * 60 * 60 * 1_000_000_000
  const TOKEN_PREFIX := "pv1_"

  // ---- Token texts ----

  function TokenText(random: seq<Byte>): Token
  {
    TOKEN_PREFIX + Encode(RAW_URL, random)
  }

  /** When a presented text has a hash at all. */
  predicate Hashable(text: string)
  {
    && |text| == |TOKEN_PREFIX| + 43 && text[..|TOKEN_PREFIX|] == TOKEN_PREFIX
    && var decoded := Decode(RAW_URL, text[|TOKEN_PREFIX|..]); decoded.Some? && |decoded.value| == 32
  }

  /** Every drawn token can be presented, and different draws give different tokens. */
  lemma DrawnTokens(x: seq<Byte>, y: seq<Byte>)
    requires |x| == 32 && |y| == 32
    ensures Hashable(TokenText(x))
    ensures TokenText(x) == TokenText(y) ==> x == y
  {
    EncodeLength(RAW_URL, x);
    DecodeInverts(RAW_URL, x);
    DecodeInverts(RAW_URL, y);
    assert TokenText(x)[4..] == Encode(RAW_URL, x) && TokenText(y)[4..] == Encode(RAW_URL, y);
    assert TokenText(x)[..4] == TOKEN_PREFIX;
  }

  // ---- The operations ----

  /** What the random source yields for the family id and the two tokens; None is a failed read. */
  datatype Draws = Draws(family: Option<Token>, access: Option<Token>, refresh: Option<Token>)

  function Put(s: State, token: Token, session: Session): State
    requires session.family in s.families
  {
    s.(sessions := s.sessions[token := session],
      families := s.families[session.family := s.families[session.family] + {token}])
  }

  /** A new family with its two tokens, as far as the random source allows. */
  function IssuePair(s: State, user: string, draws: Draws, now: int): (State, Option<TokenPair>)
  {
    if draws.family == None then (s, None)
    else
      var started := s.(families := s.families[draws.family.value := {}]);
      if draws.access == None then (started, None)
      else
        var half := Put(started, draws.access.value, Session(user, draws.family.value, now + ACCESS_LIFETIME, Access));
        if draws.refresh == None then (half, None)
        else
          (Put(half, draws.refresh.value, Session(user, draws.family.value, now + REFRESH_LIFETIME, Refresh)),
           Some(TokenPair(draws.access.value, draws.refresh.value, now + ACCESS_LIFETIME, now + REFRESH_LIFETIME)))
  }

  function Issue(s: State, user: string, draws: Draws, now: int): (State, Option<TokenPair>)
  {
    if user == "" then (s, None) else IssuePair(s, user, draws, now)
  }

  function Members(s: State, family: Token): set<Token>
  {
    if family in s.families then s.families[family] else {}
  }

  function RevokeFamily(s: State, family: Token): State
  {
    s.(sessions := s.sessions - Members(s, family), families := s.families - {family})
  }

  predicate HoldsUser(s: State, family: Token, user: string)
  {
    exists t :: t in Members(s, family) && t in s.sessions && s.sessions[t].user == user
  }

  function RevokeUser(s: State, user: string): State
  {
    s.(sessions := map t |
         t in s.sessions && !(exists f :: f in s.families && HoldsUser(s, f, user) && t in s.families[f]) ::
         s.sessions[t],
       families := map f | f in s.families && !HoldsUser(s, f, user) :: s.families[f])
  }

  predicate Accepts(s: State, token: Token, now: int)
  {
    token in s.sessions && s.sessions[token].kind == Refresh && now < s.sessions[token].expiresAt
  }

  /** now is the clock at the expiry check, later the clock when the new pair is issued. */
  function Rotate(s: State, token: string, draws: Draws, now: int, later: int): (State, Option<(TokenPair, string)>)
  {
    if !Hashable(token) then (s, None)
    else if Accepts(s, token, now) then
      var session := s.sessions[token];
      var emptied := RevokeFamily(s.(consumed := s.consumed[token := session.user]), session.family);
      var (after, pair) := IssuePair(emptied, session.user, draws, later);
      (after, if pair.Some? then Some((pair.value, session.user)) else None)
    else if token in s.sessions then (RevokeFamily(s, s.sessions[token].family), None)
    else if token in s.consumed then (RevokeUser(s, s.consumed[token]), None)
    else (s, None)
  }

  function Authenticate(s: State, token: string, kind: Kind, now: int): Option<string>
  {
    if Hashable(token) && token in s.sessions && s.sessions[token].kind == kind && now < s.sessions[token].expiresAt
    then Some(s.sessions[token].user) else None
  }

  // ---- The index invariant ----

  /** families lists exactly the tokens of sessions, family by family. */
  ghost predicate Indexed(s: State)
  {
    && (forall t :: t in s.sessions ==> s.sessions[t].family in s.families && t in s.families[s.sessions[t].family])
    && (forall f, t :: f in s.families && t in s.families[f] ==> t in s.sessions && s.sessions[t].family == f)
  }

  ghost predicate OneUserPerFamily(s: State)
  {
    forall t, u :: t in s.sessions && u in s.sessions && s.sessions[t].family == s.sessions[u].family ==>
                     s.sessions[t].user == s.sessions[u].user
  }

  ghost predicate ConsumedGone(s: State)
  {
    forall t :: t in s.consumed ==> t !in s.sessions
  }

  ghost predicate Inv(s: State)
  {
    Indexed(s) && OneUserPerFamily(s) && ConsumedGone(s)
  }

  /** The draws of one pair are new to the store. */
  ghost predicate FreshFor(s: State, draws: Draws)
  {
    && (draws.family.Some? ==> draws.family.value !in s.families)
    && (draws.access.Some? ==> draws.access.value !in s.sessions && draws.access.value !in s.consumed)
    && (draws.refresh.Some? ==> draws.refresh.value !in s.sessions && draws.refresh.value !in s.consumed)
    && (draws.access.Some? ==> draws.access != draws.refresh)
  }

  predicate IssuesToken(draws: Draws, token: Token, kind: Kind)
  {
    match kind
    case Access => draws.family.Some? && draws.access == Some(token)
    case Refresh => draws.family.Some? && draws.access.Some? && draws.refresh == Some(token)
  }

  function Lifetime(kind: Kind): int
  {
    match kind case Access => ACCESS_LIFETIME case Refresh => REFRESH_LIFETIME
  }

  /** A new token of a family whose tokens all belong to its user keeps the invariant. */
  lemma PutKeepsInv(s: State, token: Token, session: Session)
    requires Inv(s) && session.family in s.families && token !in s.sessions && token !in s.consumed
    requires forall t :: t in s.families[session.family] ==> t in s.sessions && s.sessions[t].user == session.user
    ensures Inv(Put(s, token, session))
  {
    var after := Put(s, token, session);
    assert Indexed(after);
    assert OneUserPerFamily(after);
  }

  lemma IssueKeepsInv(s: State, user: string, draws: Draws, now: int)
    requires Inv(s) && FreshFor(s, draws)
    ensures Inv(IssuePair(s, user, draws, now).0)
  {
    if draws.family.Some? {
      var started := s.(families := s.families[draws.family.value := {}]);
      assert Inv(started);
      if draws.access.Some? {
        var access := Session(user, draws.family.value, now + ACCESS_LIFETIME, Access);
        PutKeepsInv(started, draws.access.value, access);
        if draws.refresh.Some? {
          var half := Put(started, draws.access.value, access);
          PutKeepsInv(half, draws.refresh.value, Session(user, draws.family.value, now + REFRESH_LIFETIME, Refresh));
        }
      }
    }
  }

  /** Issuing adds exactly the drawn tokens and touches no other session. */
  lemma IssueTokenwise(s: State, user: string, draws: Draws, now: int, t: Token)
    requires Inv(s) && FreshFor(s, draws)
    ensures var after := IssuePair(s, user, draws, now).0;
            && Inv(after) && after.consumed == s.consumed
            && (forall f :: f in after.families ==> f in s.families || draws.family == Some(f))
            && (t in after.sessions <==>
                  t in s.sessions || IssuesToken(draws, t, Access) || IssuesToken(draws, t, Refresh))
            && (t in s.sessions ==> after.sessions[t] == s.sessions[t])
            && (forall kind :: IssuesToken(draws, t, kind) ==>
                  after.sessions[t] == Session(user, draws.family.value, now + Lifetime(kind), kind))
  {
    hide Inv;
    IssueKeepsInv(s, user, draws, now);
  }

  /** Dropping whole families with all their sessions keeps the invariant. */
  lemma RestrictionKeepsInv(s: State, after: State)
    requires Inv(s) && after.consumed == s.consumed
    requires forall f :: f in after.families ==> f in s.families && after.families[f] == s.families[f]
    requires forall t :: t in after.sessions <==> t in s.sessions && s.sessions[t].family in after.families
    requires forall t :: t in after.sessions ==> after.sessions[t] == s.sessions[t]
    ensures Inv(after)
  {
    forall t | t in after.sessions
      ensures after.sessions[t].family in after.families && t in after.families[after.sessions[t].family]
    {
    }
    forall f, t | f in after.families && t in after.families[f]
      ensures t in after.sessions && after.sessions[t].family == f
    {
      assert t in s.families[f];
    }
  }

  /** Revoking a family removes exactly its own sessions. */
  lemma FamilyTokenwise(s: State, family: Token, t: Token)
    requires Inv(s)
    ensures var after := RevokeFamily(s, family);
            && Inv(after) && after.consumed == s.consumed
            && (forall f :: f in after.families ==> f in s.families)
            && (t in after.sessions <==> t in s.sessions && s.sessions[t].family != family)
            && (t in after.sessions ==> after.sessions[t] == s.sessions[t])
  {
    var after := RevokeFamily(s, family);
    forall u
      ensures u in after.sessions <==> u in s.sessions && s.sessions[u].family != family
    {
      assert u in s.sessions ==> (u in Members(s, family) <==> s.sessions[u].family == family);
    }
    RestrictionKeepsInv(s, after);
  }

  /** Revoking a user removes exactly the user's sessions. */
  lemma UserTokenwise(s: State, user: string, t: Token)
    requires Inv(s)
    ensures var after := RevokeUser(s, user);
            && Inv(after) && after.consumed == s.consumed
            && (forall f :: f in after.families ==> f in s.families)
            && (t in after.sessions <==> t in s.sessions && s.sessions[t].user != user)
            && (t in after.sessions ==> after.sessions[t] == s.sessions[t])
  {
    var after := RevokeUser(s, user);
    forall u
      ensures u in after.sessions <==> u in s.sessions && s.sessions[u].user != user
    {
      if u in s.sessions {
        var f := s.sessions[u].family;
        if s.sessions[u].user == user {
          assert HoldsUser(s, f, user);
        }
      }
    }
    forall u | u in s.sessions
      ensures u in after.sessions <==> s.sessions[u].family in after.families
    {
      assert u in s.families[s.sessions[u].family];
    }
    RestrictionKeepsInv(s, after);
  }

  /** An accepted rotation spends the token and swaps its family for the drawn pair; all other sessions stay. */
  lemma RotateTokenwise(s: State, x: Token, draws: Draws, now: int, later: int, t: Token)
    requires Inv(s) && FreshFor(s, draws) && Hashable(x) && Accepts(s, x, now)
    ensures var after := Rotate(s, x, draws, now, later).0;
            && Inv(after) && after.consumed == s.consumed[x := s.sessions[x].user]
            && (forall f :: f in after.families ==> f in s.families || draws.family == Some(f))
            && (t in after.sessions <==>
                (t in s.sessions && s.sessions[t].family != s.sessions[x].family)
                || IssuesToken(draws, t, Access) || IssuesToken(draws, t, Refresh))
            && (t in s.sessions && t in after.sessions ==> after.sessions[t] == s.sessions[t])
            && (forall kind :: IssuesToken(draws, t, kind) ==>
                  after.sessions[t] == Session(s.sessions[x].user, draws.family.value, later + Lifetime(kind), kind))
  {
    hide Indexed, Hashable, IssuePair, OneUserPerFamily;
    var session := s.sessions[x];
    var emptied := RevokeFamily(s.(consumed := s.consumed[x := session.user]), session.family);
    forall u { FamilyTokenwise(s, session.family, u); }
    SameIndex(RevokeFamily(s, session.family), emptied);
    IssueTokenwise(emptied, session.user, draws, later, t);
  }

  /** The index invariant does not read consumed. */
  lemma SameIndex(s: State, u: State)
    requires Indexed(s) && OneUserPerFamily(s) && u.sessions == s.sessions && u.families == s.families
    ensures Indexed(u) && OneUserPerFamily(u)
  {
  }

  predicate AllDrawn(draws: Draws)
  {
    draws.family.Some? && draws.access.Some? && draws.refresh.Some?
  }

  /** A rotation answers with the drawn pair, if the token is accepted and the random source works to the end. */
  lemma RotateAnswers(s: State, x: string, draws: Draws, now: int, later: int)
    ensures var (_, r) := Rotate(s, x, draws, now, later);
            && (r.Some? <==> Hashable(x) && Accepts(s, x, now) && AllDrawn(draws))
            && (r.Some? ==> r.value.0.access == draws.access.value && r.value.0.refresh == draws.refresh.value
                            && r.value.1 == s.sessions[x].user)
  {
    hide Hashable, RevokeFamily, RevokeUser, Put;
  }

  // ---- The store as code ----

  class SessionStore {
    var sessions: map<Token, Session>
    var families: map<Token, set<Token>>
    var consumed: map<Token, string>

    function View(): State
      reads this
    {
      State(sessions, families, consumed)
    }

    constructor ()
      ensures View() == EMPTY
    {
      sessions, families, consumed := map[], map[], map[];
    }

    method IssueFor(user: string, draws: Draws, now: int) returns (r: Option<TokenPair>)
      modifies this
      ensures (View(), r) == Issue(old(View()), user, draws, now)
    {
      if user == "" {
        return None;
      }
      r := NewFamily(user, draws, now);
    }

    method NewFamily(user: string, draws: Draws, now: int) returns (r: Option<TokenPair>)
      modifies this
      ensures (View(), r) == IssuePair(old(View()), user, draws, now)
    {
      if draws.family == None {
        return None;
      }
      families := families[draws.family.value := {}];
      if draws.access == None {
        return None;
      }
      IssueToken(user, draws.family.value, Access, now + ACCESS_LIFETIME, draws.access.value);
      if draws.refresh == None {
        return None;
      }
      IssueToken(user, draws.family.value, Refresh, now + REFRESH_LIFETIME, draws.refresh.value);
      return Some(TokenPair(draws.access.value, draws.refresh.value, now + ACCESS_LIFETIME, now + REFRESH_LIFETIME));
    }

    method IssueToken(user: string, family: Token, kind: Kind, expiresAt: int, token: Token)
      requires family in families
      modifies this
      ensures View() == Put(old(View()), token, Session(user, family, expiresAt, kind))
    {
      sessions := sessions[token := Session(user, family, expiresAt, kind)];
      families := families[family := families[family] + {token}];
    }

    method RevokeFamilyTokens(family: Token)
      modifies this
      ensures View() == RevokeFamily(old(View()), family)
    {
      hide Members;
      ghost var members := Members(View(), family);
      var left := Members(View(), family);
      while left != {}
        invariant left <= members && families == old(families) && consumed == old(consumed)
        invariant forall t :: t in sessions <==> t in old(sessions) && (t in left || t !in members)
        invariant forall t :: t in sessions ==> sessions[t] == old(sessions)[t]
        decreases |left|
      {
        var t :| t in left;
        sessions := sessions - {t};
        left := left - {t};
      }
      assert sessions == old(sessions) - members;
      families := families - {family};
    }

    /** Range over the families in any order, revoking each that holds a session of the user. */
    method RevokeUserTokens(user: string)
      requires Inv(View())
      modifies this
      ensures View() == RevokeUser(old(View()), user)
    {
      ghost var was := View();
      var left := families.Keys;
      while left != {}
        invariant forall f :: f in left ==> f in was.families
        invariant consumed == was.consumed && Inv(View())
        invariant forall f :: f in families <==> f in was.families && (f in left || !HoldsUser(was, f, user))
        invariant forall f :: f in families ==> families[f] == was.families[f]
        invariant forall t :: t in sessions <==> t in was.sessions && was.sessions[t].family in families
        invariant forall t :: t in sessions ==> sessions[t] == was.sessions[t]
        decreases |left|
      {
        var f :| f in left;
        assert HoldsUser(View(), f, user) <==> HoldsUser(was, f, user);
        if HoldsUser(View(), f, user) {
          ghost var before := View();
          RevokeFamilyTokens(f);
          forall t { FamilyTokenwise(before, f, t); }
        }
        left := left - {f};
      }
      UserRevoked(was, View(), user);
    }

    method RotateRefresh(token: string, draws: Draws, now: int, later: int) returns (r: Option<(TokenPair, string)>)
      requires Inv(View())
      modifies this
      ensures (View(), r) == Rotate(old(View()), token, draws, now, later)
    {
      if !Hashable(token) {
        return None;
      }
      var known := token in sessions;
      if !known || sessions[token].kind != Refresh || now >= sessions[token].expiresAt {
        if known {
          RevokeFamilyTokens(sessions[token].family);
        } else if token in consumed {
          RevokeUserTokens(consumed[token]);
        }
        return None;
      }
      var session := sessions[token];
      consumed := consumed[token := session.user];
      RevokeFamilyTokens(session.family);
      var pair := NewFamily(session.user, draws, later);
      return if pair.Some? then Some((pair.value, session.user)) else None;
    }

    method AuthenticateAccess(token: string, now: int) returns (r: Option<string>)
      ensures r == Authenticate(View(), token, Access, now)
    {
      if !Hashable(token) || token !in sessions || sessions[token].kind != Access || now >= sessions[token].expiresAt {
        return None;
      }
      return Some(sessions[token].user);
    }
  }

  lemma UserRevoked(was: State, now: State, user: string)
    requires Inv(was) && now.consumed == was.consumed
    requires forall f :: f in now.families <==> f in was.families && !HoldsUser(was, f, user)
    requires forall f :: f in now.families ==> now.families[f] == was.families[f]
    requires forall t :: t in now.sessions <==> t in was.sessions && was.sessions[t].family in now.families
    requires forall t :: t in now.sessions ==> now.sessions[t] == was.sessions[t]
    ensures now == RevokeUser(was, user)
  {
    hide HoldsUser;
    var spec := RevokeUser(was, user);
    assert now.families == spec.families;
    forall t | t in was.sessions
      ensures t in now.sessions <==> t in spec.sessions
    {
      assert forall f :: f in was.families && t in was.families[f] <==> f == was.sessions[t].family;
    }
    assert now.sessions == spec.sessions;
  }
}
