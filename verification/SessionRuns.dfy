/** Histories of the session store: what a token is worth at any point, told from the calls alone. */
module SessionRuns {
  import opened Wrappers
  import opened Base64
  import opened Sessions

  datatype Event =
    | Issuing(user: string, draws: Draws, now: int)
    | Rotating(token: string, draws: Draws, now: int, later: int)
    | Revoking(user: string)

  function Step(s: State, e: Event): State
  {
    match e
    case Issuing(user, draws, now) => Issue(s, user, draws, now).0
    case Rotating(token, draws, now, later) => Rotate(s, token, draws, now, later).0
    case Revoking(user) => RevokeUser(s, user)
  }

  function Run(h: seq<Event>, n: nat): State
    requires n <= |h|
  {
    if n == 0 then EMPTY else Step(Run(h, n - 1), h[n - 1])
  }

  function DrawsOf(e: Event): Draws
  {
    if e.Revoking? then Draws(None, None, None) else e.draws
  }

  /** The clock a pair's lifetimes are counted from. */
  function IssueTime(e: Event): int
  {
    match e case Issuing(_, _, now) => now case Rotating(_, _, _, later) => later case Revoking(_) => 0
  }

  predicate DrawsToken(e: Event, t: Token)
  {
    DrawsOf(e).access == Some(t) || DrawsOf(e).refresh == Some(t)
  }

  /** The random source never repeats itself, and its tokens are well formed (DrawnTokens). */
  ghost predicate Fresh(h: seq<Event>)
  {
    && (forall i, t :: 0 <= i < |h| && DrawsToken(h[i], t) ==> Hashable(t))
    && (forall i, j, t :: 0 <= i < j < |h| && DrawsToken(h[i], t) ==> !DrawsToken(h[j], t))
    && (forall i, j :: 0 <= i < j < |h| && DrawsOf(h[i]).family.Some? ==> DrawsOf(h[i]).family != DrawsOf(h[j]).family)
    && (forall i :: 0 <= i < |h| && DrawsOf(h[i]).access.Some? ==> DrawsOf(h[i]).access != DrawsOf(h[i]).refresh)
  }

  // ---- The reference semantics: no maps, only the calls made so far ----

  /** Call j issues a pair to user u: an issue for u, or a rotation of a refresh token of u that is still good. */
  ghost predicate ActsFor(h: seq<Event>, j: nat, u: string)
    requires j < |h|
    decreases j, 2
  {
    match h[j]
    case Issuing(user, _, _) => user == u && u != ""
    case Revoking(_) => false
    case Rotating(x, _, now, _) =>
      exists i: nat :: i < j && Issues(h, i, x, Refresh) && ActsFor(h, i, u) && Alive(h, i, j)
                       && now < IssueTime(h[i]) + 30 * 24 * 3600 * 1_000_000_000
  }

  /** Call i put token x into the world. */
  ghost predicate Issues(h: seq<Event>, i: nat, x: Token, kind: Kind)
    requires i < |h|
    decreases i, 3
  {
    IssuesToken(DrawsOf(h[i]), x, kind) && exists u :: ActsFor(h, i, u)
  }

  ghost predicate Spends(h: seq<Event>, m: nat, x: Token, u: string)
    requires m < |h|
    decreases m, 3
  {
    h[m].Rotating? && h[m].token == x && ActsFor(h, m, u)
  }

  /** Call k ends the family that call i issued: it revokes the family's user, presents one of the family's own
      tokens for rotation, or presents a spent token of the same user. */
  ghost predicate Kills(h: seq<Event>, k: nat, i: nat)
    requires i < k < |h|
    decreases k, 4
  {
    match h[k]
    case Issuing(_, _, _) => false
    case Revoking(u) => ActsFor(h, i, u)
    case Rotating(x, _, _, _) =>
      || Issues(h, i, x, Access)
      || Issues(h, i, x, Refresh)
      || exists m: nat, u :: m < k && Spends(h, m, x, u) && ActsFor(h, i, u)
  }

  ghost predicate Alive(h: seq<Event>, i: nat, n: nat)
    requires i < n <= |h|
    decreases n, 0
  {
    forall k :: i < k < n ==> !Kills(h, k, i)
  }

  /** The pair issued by call i still counts after n calls. */
  ghost predicate Live(h: seq<Event>, n: nat, t: Token, i: nat, kind: Kind)
    requires n <= |h|
  {
    i < n && Issues(h, i, t, kind) && Alive(h, i, n)
  }

  ghost predicate LiveToken(h: seq<Event>, n: nat, t: Token)
    requires n <= |h|
  {
    exists i: nat, kind :: Live(h, n, t, i, kind)
  }

  ghost predicate Brings(h: seq<Event>, n: nat, t: Token)
    requires n < |h|
  {
    exists kind :: Issues(h, n, t, kind)
  }

  lemma OneIssuer(h: seq<Event>, t: Token, i: nat, a: Kind, j: nat, b: Kind)
    requires Fresh(h) && i < |h| && j < |h| && Issues(h, i, t, a) && Issues(h, j, t, b)
    ensures i == j && a == b
  {
    assert DrawsToken(h[i], t) && DrawsToken(h[j], t);
  }

  lemma {:induction false} OneUser(h: seq<Event>, j: nat, u: string, v: string)
    requires Fresh(h) && j < |h| && ActsFor(h, j, u) && ActsFor(h, j, v)
    ensures u == v
    decreases j
  {
    hide Alive, Fresh;
    if h[j].Rotating? {
      var a: nat :| a < j && Issues(h, a, h[j].token, Refresh) && ActsFor(h, a, u);
      var b: nat :| b < j && Issues(h, b, h[j].token, Refresh) && ActsFor(h, b, v);
      OneIssuer(h, h[j].token, a, Refresh, b, Refresh);
      OneUser(h, a, u, v);
    }
  }

  // ---- The maps are exactly the reference ----

  /** A stored session is a live token with the data of the call that issued it. */
  ghost predicate SessionsLinked(h: seq<Event>, n: nat)
    requires n <= |h|
  {
    var s := Run(h, n);
    && (forall t :: t in s.sessions ==> LiveToken(h, n, t))
    && (forall t, i: nat, kind :: Live(h, n, t, i, kind) ==> t in s.sessions && Records(h, i, kind, s.sessions[t]))
  }

  ghost predicate Records(h: seq<Event>, i: nat, kind: Kind, session: Session)
  {
    && i < |h| && session.kind == kind && session.expiresAt == IssueTime(h[i]) + Lifetime(kind)
    && DrawsOf(h[i]).family == Some(session.family) && ActsFor(h, i, session.user)
  }

  ghost predicate ConsumedLinked(h: seq<Event>, n: nat)
    requires n <= |h|
  {
    var s := Run(h, n);
    && (forall t :: t in s.consumed ==> exists m: nat :: m < n && Spends(h, m, t, s.consumed[t]))
    && (forall m: nat, t, u :: m < n && Spends(h, m, t, u) ==> t in s.consumed && s.consumed[t] == u)
  }

  ghost predicate FamiliesDrawn(h: seq<Event>, n: nat)
    requires n <= |h|
  {
    forall f :: f in Run(h, n).families ==> exists i: nat :: i < n && DrawsOf(h[i]).family == Some(f)
  }

  ghost predicate Linked(h: seq<Event>, n: nat)
    requires n <= |h|
  {
    Inv(Run(h, n)) && SessionsLinked(h, n) && ConsumedLinked(h, n) && FamiliesDrawn(h, n)
  }

  /** Every token the store knows was drawn by an earlier call. */
  lemma KnownWasDrawn(h: seq<Event>, n: nat, t: Token)
    requires n <= |h| && SessionsLinked(h, n) && ConsumedLinked(h, n)
    ensures t in Run(h, n).sessions || t in Run(h, n).consumed ==> exists i: nat :: i < n && DrawsToken(h[i], t)
  {
    hide Run, Alive, Records;
    var s := Run(h, n);
    if t in s.sessions {
      var i: nat, kind :| Live(h, n, t, i, kind);
      assert DrawsToken(h[i], t);
    } else if t in s.consumed {
      var m: nat :| m < n && Spends(h, m, t, s.consumed[t]);
      assert ActsFor(h, m, s.consumed[t]);
      var i: nat :| i < m && Issues(h, i, t, Refresh);
      assert DrawsToken(h[i], t);
    }
  }

  /** Freshness of the history is freshness for the state reached. */
  lemma DrawsAreFresh(h: seq<Event>, n: nat)
    requires Fresh(h) && n < |h| && Linked(h, n)
    ensures FreshFor(Run(h, n), DrawsOf(h[n]))
  {
    hide Inv, Run, Alive, SessionsLinked, ConsumedLinked;
    forall t | DrawsToken(h[n], t)
      ensures t !in Run(h, n).sessions && t !in Run(h, n).consumed
    {
      KnownWasDrawn(h, n, t);
    }
  }

  /** What one more call does to the liveness of a token. */
  lemma LiveStep(h: seq<Event>, n: nat, t: Token, i: nat, kind: Kind)
    requires n < |h|
    ensures Live(h, n + 1, t, i, kind) <==>
            (Live(h, n, t, i, kind) && !Kills(h, n, i)) || (i == n && Issues(h, n, t, kind))
  {
    hide Issues, Kills;
  }

  /** The session map stays linked when a call removes exactly the families it kills and adds what it issues. */
  lemma Relink(h: seq<Event>, n: nat)
    requires Fresh(h) && n < |h| && SessionsLinked(h, n)
    requires forall t, i: nat, kind :: Live(h, n, t, i, kind) ==> (t in Run(h, n + 1).sessions <==> !Kills(h, n, i))
    requires forall t :: t in Run(h, n + 1).sessions && t in Run(h, n).sessions ==>
                           Run(h, n + 1).sessions[t] == Run(h, n).sessions[t]
    requires forall t :: t in Run(h, n + 1).sessions ==> t in Run(h, n).sessions || Brings(h, n, t)
    requires forall t, kind :: Issues(h, n, t, kind) ==>
                                 t in Run(h, n + 1).sessions && Records(h, n, kind, Run(h, n + 1).sessions[t])
    ensures SessionsLinked(h, n + 1)
  {
    hide Run, Fresh, Issues, Kills, Records, Live;
    var next := n + 1;
    var s, after := Run(h, n), Run(h, next);
    forall t | t in after.sessions
      ensures LiveToken(h, next, t)
    {
      if t in s.sessions {
        var i: nat, kind :| Live(h, n, t, i, kind);
        LiveStep(h, n, t, i, kind);
      } else {
        var kind :| Issues(h, n, t, kind);
        LiveStep(h, n, t, n, kind);
      }
    }
    forall t, i: nat, kind | Live(h, next, t, i, kind)
      ensures t in after.sessions && Records(h, i, kind, after.sessions[t])
    {
      LiveStep(h, n, t, i, kind);
    }
  }

  /** For a token whose family is of call i: the family of call j is the same exactly when j is i. */
  lemma SameFamily(h: seq<Event>, i: nat, j: nat, a: Kind, b: Kind, session: Session, other: Session)
    requires Fresh(h) && Records(h, i, a, session) && Records(h, j, b, other)
    ensures session.family == other.family <==> i == j
  {
  }

  lemma IssuingLinks(h: seq<Event>, n: nat)
    requires Fresh(h) && n < |h| && Linked(h, n) && h[n].Issuing?
    ensures Linked(h, n + 1)
  {
    hide Inv, Fresh, Alive, IssuePair, FreshFor;
    var s, after, user, draws, now := Run(h, n), Run(h, n + 1), h[n].user, h[n].draws, h[n].now;
    if user == "" {
      assert forall t, kind :: !Issues(h, n, t, kind);
      Relink(h, n);
    } else {
      assert ActsFor(h, n, user);
      DrawsAreFresh(h, n);
      forall t { IssueTokenwise(s, user, draws, now, t); }
      PairIssued(h, n, user);
      Relink(h, n);
    }
  }

  /** What Relink asks of the new tokens, for a call that issues a pair to user. */
  lemma PairIssued(h: seq<Event>, n: nat, user: string)
    requires n < |h| && ActsFor(h, n, user)
    requires forall t, kind :: IssuesToken(DrawsOf(h[n]), t, kind) ==>
               t in Run(h, n + 1).sessions &&
               Run(h, n + 1).sessions[t]
               == Session(user, DrawsOf(h[n]).family.value, IssueTime(h[n]) + Lifetime(kind), kind)
    requires forall t :: t in Run(h, n + 1).sessions ==>
               t in Run(h, n).sessions || IssuesToken(DrawsOf(h[n]), t, Access)
                 || IssuesToken(DrawsOf(h[n]), t, Refresh)
    ensures forall t, kind :: Issues(h, n, t, kind) ==>
               t in Run(h, n + 1).sessions && Records(h, n, kind, Run(h, n + 1).sessions[t])
    ensures forall t :: t in Run(h, n + 1).sessions ==> t in Run(h, n).sessions || Brings(h, n, t)
  {
    hide Run, ActsFor;
    forall t | t in Run(h, n + 1).sessions
      ensures t in Run(h, n).sessions || Brings(h, n, t)
    {
      if t !in Run(h, n).sessions {
        assert Issues(h, n, t, Access) || Issues(h, n, t, Refresh);
      }
    }
  }

  lemma RevokingLinks(h: seq<Event>, n: nat)
    requires Fresh(h) && n < |h| && Linked(h, n) && h[n].Revoking?
    ensures Linked(h, n + 1)
  {
    assert forall u :: !ActsFor(h, n, u);
    hide Inv, Fresh, Alive, Issues, ActsFor, RevokeUser;
    var s, after, user := Run(h, n), Run(h, n + 1), h[n].user;
    forall t { UserTokenwise(s, user, t); }
    forall t, i: nat, kind | Live(h, n, t, i, kind)
      ensures t in after.sessions <==> !Kills(h, n, i)
    {
      if ActsFor(h, i, user) { OneUser(h, i, user, s.sessions[t].user); }
    }
    NoIssue(h, n);
    Relink(h, n);
    assert ConsumedLinked(h, n + 1);
    assert FamiliesDrawn(h, n + 1);
  }

  lemma NoIssue(h: seq<Event>, n: nat)
    requires n < |h| && !(exists u :: ActsFor(h, n, u))
    ensures forall t, kind :: !Issues(h, n, t, kind)
    ensures forall t, u :: !Spends(h, n, t, u)
  {
    hide ActsFor;
  }

  /** The code accepts a rotation exactly when the reference does, and for the same user. */
  lemma AcceptsExactly(h: seq<Event>, n: nat)
    requires Fresh(h) && n < |h| && Linked(h, n) && h[n].Rotating?
    ensures var s, x := Run(h, n), h[n].token;
            && (Hashable(x) && Accepts(s, x, h[n].now) <==> exists u :: ActsFor(h, n, u))
            && (forall u :: ActsFor(h, n, u) ==> x in s.sessions && u == s.sessions[x].user)
  {
    hide Inv, Run, Alive, Kills, Hashable;
    var s, x := Run(h, n), h[n].token;
    if Hashable(x) && Accepts(s, x, h[n].now) {
      var i: nat, kind :| Live(h, n, x, i, kind);
      assert ActsFor(h, n, s.sessions[x].user);
    }
    forall u | ActsFor(h, n, u)
      ensures Hashable(x) && Accepts(s, x, h[n].now) && u == s.sessions[x].user
    {
      var i: nat :| i < n && Issues(h, i, x, Refresh) && ActsFor(h, i, u) && Alive(h, i, n)
                    && h[n].now < IssueTime(h[i]) + 30 * 24 * 3600 * 1_000_000_000;
      assert Live(h, n, x, i, Refresh) && DrawsToken(h[i], x);
      OneUser(h, i, u, s.sessions[x].user);
    }
  }

  /** Which families a presented token ends, said of the store. */
  lemma PresentedKills(h: seq<Event>, n: nat, t: Token, i: nat, kind: Kind)
    requires Fresh(h) && n < |h| && Linked(h, n) && h[n].Rotating? && Live(h, n, t, i, kind)
    ensures var s, x := Run(h, n), h[n].token;
            && t in s.sessions
            && (Kills(h, n, i) <==>
                if x in s.sessions then s.sessions[t].family == s.sessions[x].family
                else x in s.consumed && s.consumed[x] == s.sessions[t].user)
  {
    var s, x := Run(h, n), h[n].token;
    hide Run, ActsFor, Indexed, OneUserPerFamily;
    if x in s.sessions {
      var j: nat, other :| Live(h, n, x, j, other);
      SameFamily(h, i, j, kind, other, s.sessions[t], s.sessions[x]);
      if Issues(h, i, x, Access) { OneIssuer(h, x, i, Access, j, other); }
      if Issues(h, i, x, Refresh) { OneIssuer(h, x, i, Refresh, j, other); }
    } else {
      assert !Live(h, n, x, i, Access) && !Live(h, n, x, i, Refresh);
      forall u | ActsFor(h, i, u)
        ensures u == s.sessions[t].user
      {
        OneUser(h, i, u, s.sessions[t].user);
      }
    }
  }

  /** The consumed map stays linked when it keeps its entries and gains what the call spends. */
  lemma RelinkConsumed(h: seq<Event>, n: nat)
    requires n < |h| && ConsumedLinked(h, n)
    requires forall t :: t in Run(h, n).consumed ==>
               t in Run(h, n + 1).consumed && Run(h, n + 1).consumed[t] == Run(h, n).consumed[t]
    requires forall t :: t in Run(h, n + 1).consumed ==>
               t in Run(h, n).consumed || Spends(h, n, t, Run(h, n + 1).consumed[t])
    requires forall t, u :: Spends(h, n, t, u) ==> t in Run(h, n + 1).consumed && Run(h, n + 1).consumed[t] == u
    ensures ConsumedLinked(h, n + 1)
  {
    hide Run, Spends;
    var next := n + 1;
    var s, after := Run(h, n), Run(h, next);
    forall t | t in after.consumed
      ensures exists m: nat :: m < next && Spends(h, m, t, after.consumed[t])
    {
      if t in s.consumed {
        var m: nat :| m < n && Spends(h, m, t, s.consumed[t]);
        assert m < next;
      }
    }
    forall m: nat, t, u | m < next && Spends(h, m, t, u)
      ensures t in after.consumed && after.consumed[t] == u
    {
      if m < n {
        assert t in s.consumed;
      }
    }
  }

  /** A presented token the store does not accept: it only ever removes sessions. */
  lemma RefusedStep(h: seq<Event>, n: nat, t: Token)
    requires Fresh(h) && n < |h| && Linked(h, n) && h[n].Rotating?
    requires !(exists u :: ActsFor(h, n, u))
    ensures var s, after, x := Run(h, n), Run(h, n + 1), h[n].token;
            && Inv(after) && after.consumed == s.consumed && (forall f :: f in after.families ==> f in s.families)
            && (t in after.sessions ==> t in s.sessions && after.sessions[t] == s.sessions[t])
            && (t in s.sessions ==>
                  (t in after.sessions <==>
                   !(if x in s.sessions then s.sessions[t].family == s.sessions[x].family
                     else x in s.consumed && s.consumed[x] == s.sessions[t].user)))
  {
    var s, x := Run(h, n), h[n].token;
    AcceptsExactly(h, n);
    KnownWasDrawn(h, n, x);
    assert x in s.sessions || x in s.consumed ==> Hashable(x);
    if x in s.sessions {
      FamilyTokenwise(s, s.sessions[x].family, t);
    } else if x in s.consumed {
      UserTokenwise(s, s.consumed[x], t);
    }
    hide Inv, Fresh, ActsFor, RevokeFamily, RevokeUser, Hashable, SessionsLinked, ConsumedLinked, FamiliesDrawn;
  }

  lemma RefusedLinks(h: seq<Event>, n: nat)
    requires Fresh(h) && n < |h| && Linked(h, n) && h[n].Rotating?
    requires !(exists u :: ActsFor(h, n, u))
    ensures Linked(h, n + 1)
  {
    hide Inv, Run, Fresh, Alive, Issues, Kills;
    RefusedStep(h, n, h[n].token);
    NoIssue(h, n);
    forall t { RefusedStep(h, n, t); }
    forall t, i: nat, kind | Live(h, n, t, i, kind)
      ensures t in Run(h, n + 1).sessions <==> !Kills(h, n, i)
    {
      PresentedKills(h, n, t, i, kind);
    }
    Relink(h, n);
    RelinkConsumed(h, n);
  }

  lemma AcceptedStep(h: seq<Event>, n: nat, u: string, t: Token)
    requires Fresh(h) && n < |h| && Linked(h, n) && h[n].Rotating? && ActsFor(h, n, u)
    ensures var s, after, x, draws := Run(h, n), Run(h, n + 1), h[n].token, h[n].draws;
            && x in s.sessions && x !in s.consumed
            && Inv(after) && after.consumed == s.consumed[x := u]
            && (forall f :: f in after.families ==> f in s.families || draws.family == Some(f))
            && (t in after.sessions <==>
                (t in s.sessions && s.sessions[t].family != s.sessions[x].family)
                || IssuesToken(draws, t, Access) || IssuesToken(draws, t, Refresh))
            && (t in s.sessions && t in after.sessions ==> after.sessions[t] == s.sessions[t])
            && (t in s.sessions ==> !IssuesToken(draws, t, Access) && !IssuesToken(draws, t, Refresh))
            && (forall kind :: IssuesToken(draws, t, kind) ==>
                  after.sessions[t] == Session(u, draws.family.value, h[n].later + Lifetime(kind), kind))
  {
    hide Run, Rotate, Fresh, ActsFor, SessionsLinked, ConsumedLinked, FamiliesDrawn, Indexed, OneUserPerFamily,
      Hashable;
    AcceptsExactly(h, n);
    DrawsAreFresh(h, n);
    RotateTokenwise(Run(h, n), h[n].token, h[n].draws, h[n].now, h[n].later, t);
    RotatingStep(h, n);
  }

  lemma RotatingStep(h: seq<Event>, n: nat)
    requires n < |h| && h[n].Rotating?
    ensures Run(h, n + 1) == Rotate(Run(h, n), h[n].token, h[n].draws, h[n].now, h[n].later).0
  {
    hide Rotate;
  }

  lemma AcceptedLinks(h: seq<Event>, n: nat, u: string)
    requires Fresh(h) && n < |h| && Linked(h, n) && h[n].Rotating? && ActsFor(h, n, u)
    ensures Linked(h, n + 1)
  {
    hide Inv, Run, Fresh, Alive, Issues, Kills;
    AcceptedStep(h, n, u, h[n].token);
    forall t { AcceptedStep(h, n, u, t); }
    PairIssued(h, n, u);
    forall t, i: nat, kind | Live(h, n, t, i, kind)
      ensures t in Run(h, n + 1).sessions <==> !Kills(h, n, i)
    {
      PresentedKills(h, n, t, i, kind);
    }
    hide ActsFor;
    Relink(h, n);
    forall t, v | Spends(h, n, t, v)
      ensures v == u
    {
      OneUser(h, n, u, v);
    }
    RelinkConsumed(h, n);
  }

  /** At every point of every history the store holds exactly what the calls so far entitle to. */
  lemma {:induction false} RunLinked(h: seq<Event>, n: nat)
    requires Fresh(h) && n <= |h|
    ensures Linked(h, n)
  {
    if n > 0 {
      var k := n - 1;
      RunLinked(h, k);
      hide Linked, Fresh, ActsFor, Run;
      if h[k].Issuing? {
        IssuingLinks(h, k);
      } else if h[k].Revoking? {
        RevokingLinks(h, k);
      } else if u :| ActsFor(h, k, u) {
        AcceptedLinks(h, k, u);
      } else {
        RefusedLinks(h, k);
      }
    }
  }
}
