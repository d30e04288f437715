/**
 Refresh tokens: a login starts a session, each refresh trades its latest token for the next, and a token traded in long
 ago that comes back is treated as stolen. A token's hash is an opaque id.

 A refresh is two steps others may come between: its conditional update takes and locks the token, and its commit makes
 the trade visible. So is the revoking of an owner's tokens: the update sees the rows there are when it starts, waits for
 those that are locked, and never sees one inserted meanwhile. Signing in and out are one step each, held up by locks.
 */
module Sessions {
  import opened Common
  import opened Calendar

  const REFRESH_TTL := 30 * DAY
  const REUSE_GRACE := 30_000_000

  datatype Token = Token(userID: int, expiresAt: int, revokedAt: Option<int>)

  /** Which login a token descends from, and how many trades separate it from that login's first token. */
  datatype Link = Link(login: nat, place: nat)

  /** Who signed in, and when. */
  datatype Login = Login(userID: int, since: int)

  /** A transaction under way: a trade that holds its token's row, or a revocation of the tokens it has seen. */
  datatype Call =
    | Idle
    | Trading(hash: int, next: int, now: int)
    | Revoking(seen: set<int>, now: int)

  /**
   The committed table, the users allowed in and the transactions under way; `links`, `logins` and `traded` are history,
   kept for deleted tokens too.
   */
  datatype State = State(
    tokens: map<int, Token>, active: set<int>, calls: map<int, Call>, links: map<int, Link>, logins: seq<Login>,
    traded: seq<int>)
  {
    function At(call: int): Call { if call in calls then calls[call] else Idle }
  }

  datatype Outcome = Refreshed(userID: int) | InvalidToken | TokenReuse | Failed

  datatype Action =
    | SignIn(userID: int, hash: int, now: int)
    | Refresh(call: int, hash: int, next: int, now: int)
    | Commit(call: int)
    | Abort(call: int)
    | SignOut(hash: int, now: int)
    | SetActive(userID: int, active: bool)

  /** A hash drawn before is never stored again: the column is unique, and the whole transaction rolls back. */
  predicate Drawn(s: State, hash: int) { hash in s.links }

  predicate Locked(calls: map<int, Call>, hash: int) {
    exists call :: call in calls && calls[call].Trading? && calls[call].hash == hash
  }

  /** The tokens of a user that a new login sweeps away. */
  predicate Expired(token: Token, userID: int, now: int) { token.userID == userID && token.expiresAt <= now }

  function SignedIn(s: State, userID: int, hash: int, now: int): State {
    if Drawn(s, hash) then s
    else
      var kept := map h | h in s.tokens && !Expired(s.tokens[h], userID, now) :: s.tokens[h];
      s.(tokens := kept[hash := Token(userID, now + REFRESH_TTL, None)],
         links := s.links[hash := Link(|s.logins|, 0)],
         logins := s.logins + [Login(userID, now)])
  }

  predicate SignInWaits(tokens: map<int, Token>, calls: map<int, Call>, userID: int, now: int) {
    exists h :: h in tokens && Expired(tokens[h], userID, now) && Locked(calls, h)
  }

  /** The tokens the conditional update would take: unrevoked and not yet expired. */
  predicate Usable(s: State, hash: int, now: int) {
    hash in s.tokens && s.tokens[hash].revokedAt.None? && now < s.tokens[hash].expiresAt
  }

  predicate Reused(s: State, hash: int, now: int) {
    hash in s.tokens && s.tokens[hash].revokedAt.Some? && s.tokens[hash].revokedAt.value < now - REUSE_GRACE
  }

  function Revoked(token: Token, now: int): Token {
    if token.revokedAt.Some? then token else token.(revokedAt := Some(now))
  }

  /** A user's tokens that are there and unrevoked. */
  function Unrevoked(tokens: map<int, Token>, userID: int): set<int> {
    set h | h in tokens && tokens[h].userID == userID && tokens[h].revokedAt.None?
  }

  function SeenRevoked(tokens: map<int, Token>, seen: set<int>, now: int): map<int, Token> {
    map h | h in tokens :: if h in seen then Revoked(tokens[h], now) else tokens[h]
  }

  function Began(s: State, call: int, c: Call): State { s.(calls := s.calls[call := c]) }

  /** The update takes a usable token and holds its row; failing that, one traded in long ago sets off a revocation. */
  function BeganRefresh(s: State, call: int, hash: int, next: int, now: int): State {
    if Usable(s, hash, now) then Began(s, call, Trading(hash, next, now))
    else if Reused(s, hash, now) then
      Began(s, call, Revoking(Unrevoked(s.tokens, s.tokens[hash].userID), now))
    else s
  }

  /** The rest of a trade, up to its commit. */
  function Rotated(s: State, hash: int, next: int, now: int): (State, Outcome) {
    if !Usable(s, hash, now) then (s, InvalidToken)
    else
      var held := s.tokens[hash];
      var revoked := s.tokens[hash := held.(revokedAt := Some(now))];
      if held.userID !in s.active then (s.(tokens := revoked), InvalidToken)
      else if Drawn(s, next) || hash !in s.links then (s, Failed)
      else
        (s.(tokens := revoked[next := Token(held.userID, held.expiresAt, None)],
            links := s.links[next := Link(s.links[hash].login, s.links[hash].place + 1)],
            traded := s.traded + [hash]),
         Refreshed(held.userID))
  }

  predicate RevocationWaits(calls: map<int, Call>, seen: set<int>) { exists h :: h in seen && Locked(calls, h) }

  function Committed(s: State, call: int): State {
    match s.At(call)
    case Idle => s
    case Trading(hash, next, now) => Began(Rotated(s, hash, next, now).0, call, Idle)
    case Revoking(seen, now) =>
      if RevocationWaits(s.calls, seen) then s
      else Began(s.(tokens := SeenRevoked(s.tokens, seen, now)), call, Idle)
  }

  function SignedOut(s: State, hash: int, now: int): State {
    if hash in s.tokens then s.(tokens := s.tokens[hash := Revoked(s.tokens[hash], now)]) else s
  }

  function Step(s: State, a: Action): State {
    match a
    case SignIn(userID, hash, now) =>
      if SignInWaits(s.tokens, s.calls, userID, now) then s else SignedIn(s, userID, hash, now)
    case Refresh(call, hash, next, now) =>
      if !s.At(call).Idle? || Locked(s.calls, hash) then s else BeganRefresh(s, call, hash, next, now)
    case Commit(call) => Committed(s, call)
    case Abort(call) => Began(s, call, Idle)
    case SignOut(hash, now) => if Locked(s.calls, hash) then s else SignedOut(s, hash, now)
    case SetActive(userID, active) => s.(active := if active then s.active + {userID} else s.active - {userID})
  }

  function Run(s: State, actions: seq<Action>): State
    decreases |actions|
  {
    if actions == [] then s else Run(Step(s, actions[0]), actions[1..])
  }

  const EMPTY := State(map[], {}, map[], map[], [], [])

  // ---- each login is a linear chain ----

  predicate Follows(s: State, earlier: int, later: int) {
    && earlier in s.links && later in s.links
    && s.links[later] == Link(s.links[earlier].login, s.links[earlier].place + 1)
  }

  ghost predicate LinksLinear(s: State) {
    && (forall h :: h in s.links ==> s.links[h].login < |s.logins|)
    && (forall h, g :: h in s.links && g in s.links && s.links[h] == s.links[g] ==> h == g)
    && (forall h :: h in s.links && s.links[h].place > 0 ==> exists g :: Follows(s, g, h))
  }

  /**
   A stored token has its login's owner and runs out thirty days after that signed in, however often it was traded; only
   the last of a chain can be unrevoked.
   */
  ghost predicate TokensLinked(s: State) {
    forall h :: h in s.tokens ==>
      && h in s.links && s.links[h].login < |s.logins|
      && s.tokens[h].userID == s.logins[s.links[h].login].userID
      && s.tokens[h].expiresAt == s.logins[s.links[h].login].since + REFRESH_TTL
      && (s.tokens[h].revokedAt.None? ==> IsLast(s, h))
  }

  ghost predicate IsLast(s: State, h: int)
    requires h in s.links
  {
    forall g :: g in s.links && s.links[g].login == s.links[h].login ==> s.links[g].place <= s.links[h].place
  }

  /** A hash was traded in exactly when another one follows it, and it was traded only once. */
  ghost predicate TradedOnce(s: State) {
    && (forall i, j :: 0 <= i < j < |s.traded| ==> s.traded[i] != s.traded[j])
    && (forall h :: h in s.traded <==> exists g :: Follows(s, h, g))
  }

  ghost predicate Valid(s: State) { LinksLinear(s) && TokensLinked(s) && TradedOnce(s) }

  /** A new login starts a chain of its own and follows nothing. */
  lemma SignedInFollows(s: State, userID: int, hash: int, now: int)
    requires LinksLinear(s) && !Drawn(s, hash)
    ensures var t := SignedIn(s, userID, hash, now); forall h, g :: Follows(t, h, g) <==> Follows(s, h, g)
  {
  }

  lemma SignedInIsLinear(s: State, userID: int, hash: int, now: int)
    requires Valid(s) && !Drawn(s, hash)
    ensures LinksLinear(SignedIn(s, userID, hash, now))
  {
    var t := SignedIn(s, userID, hash, now);
    forall h | h in t.links && t.links[h].place > 0 ensures exists g :: Follows(t, g, h) {
      var g :| Follows(s, g, h);
      assert Follows(t, g, h);
    }
  }

  lemma SignedInIsLinked(s: State, userID: int, hash: int, now: int)
    requires Valid(s) && !Drawn(s, hash)
    ensures TokensLinked(SignedIn(s, userID, hash, now))
  {
    var t := SignedIn(s, userID, hash, now);
    forall h | h in t.tokens && t.tokens[h].revokedAt.None? ensures h in t.links && IsLast(t, h) {
      assert h != hash ==> IsLast(s, h);
    }
  }

  lemma SignedInIsValid(s: State, userID: int, hash: int, now: int)
    requires Valid(s)
    ensures Valid(SignedIn(s, userID, hash, now))
  {
    if !Drawn(s, hash) {
      SignedInIsLinear(s, userID, hash, now);
      SignedInIsLinked(s, userID, hash, now);
      SignedInFollows(s, userID, hash, now);
    }
  }

  /** A trade adds one link, from the traded token to the new one. */
  lemma RotatedFollows(s: State, hash: int, next: int, now: int)
    requires Valid(s) && Rotated(s, hash, next, now).1.Refreshed?
    ensures var t := Rotated(s, hash, next, now).0;
            forall h, g :: Follows(t, h, g) <==> Follows(s, h, g) || (h == hash && g == next)
    ensures hash !in s.traded
  {
    assert IsLast(s, hash);
    assert forall g :: !Follows(s, hash, g);
  }

  lemma RotatedIsLinear(s: State, hash: int, next: int, now: int)
    requires Valid(s) && Rotated(s, hash, next, now).1.Refreshed?
    ensures LinksLinear(Rotated(s, hash, next, now).0)
  {
    var t := Rotated(s, hash, next, now).0;
    RotatedFollows(s, hash, next, now);
    assert IsLast(s, hash);
    assert Follows(t, hash, next);
    forall h | h in t.links && t.links[h].place > 0 ensures exists g :: Follows(t, g, h) {
      if h != next {
        var g :| Follows(s, g, h);
        assert Follows(t, g, h);
      }
    }
  }

  lemma RotatedIsTradedOnce(s: State, hash: int, next: int, now: int)
    requires Valid(s) && Rotated(s, hash, next, now).1.Refreshed?
    ensures TradedOnce(Rotated(s, hash, next, now).0)
  {
    var t := Rotated(s, hash, next, now).0;
    RotatedFollows(s, hash, next, now);
    forall h ensures h in t.traded <==> exists g :: Follows(t, h, g) {
      if h == hash {
        assert Follows(t, hash, next);
      } else if h in s.traded {
        var g :| Follows(s, h, g);
        assert Follows(t, h, g);
      }
    }
  }

  lemma RotatedIsLinked(s: State, hash: int, next: int, now: int)
    requires Valid(s) && Rotated(s, hash, next, now).1.Refreshed?
    ensures TokensLinked(Rotated(s, hash, next, now).0)
  {
    var t := Rotated(s, hash, next, now).0;
    assert IsLast(s, hash);
    forall h | h in t.tokens && t.tokens[h].revokedAt.None? ensures h in t.links && IsLast(t, h) {
      if h != next { assert IsLast(s, h) && s.links[h].login != s.links[hash].login; }
    }
  }

  lemma RotatedIsValid(s: State, hash: int, next: int, now: int)
    requires Valid(s)
    ensures Valid(Rotated(s, hash, next, now).0)
  {
    if Rotated(s, hash, next, now).1.Refreshed? {
      RotatedIsLinear(s, hash, next, now);
      RotatedIsTradedOnce(s, hash, next, now);
      RotatedIsLinked(s, hash, next, now);
    } else {
      SameChains(s, Rotated(s, hash, next, now).0);
    }
  }

  /** Revoking or deleting tokens leaves the chains alone. */
  lemma SameChains(s: State, t: State)
    requires Valid(s) && t.links == s.links && t.logins == s.logins && t.traded == s.traded
    requires forall h :: h in t.tokens ==>
      && h in s.tokens && t.tokens[h].userID == s.tokens[h].userID && t.tokens[h].expiresAt == s.tokens[h].expiresAt
      && (t.tokens[h].revokedAt.None? ==> s.tokens[h].revokedAt.None?)
    ensures Valid(t)
  {
    forall h, g ensures Follows(t, h, g) <==> Follows(s, h, g) {}
    forall h | h in t.tokens && t.tokens[h].revokedAt.None? ensures h in t.links && IsLast(t, h) {
      assert IsLast(s, h);
    }
  }

  lemma StepKeepsValid(s: State, a: Action)
    requires Valid(s)
    ensures Valid(Step(s, a))
  {
    match a
    case SignIn(userID, hash, now) => SignedInIsValid(s, userID, hash, now);
    case Commit(call) =>
      var c := s.At(call);
      if c.Trading? {
        RotatedIsValid(s, c.hash, c.next, c.now);
        SameChains(Rotated(s, c.hash, c.next, c.now).0, Step(s, a));
      } else {
        SameChains(s, Step(s, a));
      }
    case _ => SameChains(s, Step(s, a));
  }

  // ---- a row held is a row unchanged ----

  /** The token a trade took is still there to be traded, and no other trade holds it. */
  ghost predicate Held(s: State) {
    && (forall call :: s.At(call).Trading? ==> Usable(s, s.At(call).hash, s.At(call).now))
    && (forall call, other :: s.At(call).Trading? && s.At(other).Trading? && s.At(call).hash == s.At(other).hash ==>
          call == other)
  }

  lemma TradingLocks(s: State, call: int)
    requires s.At(call).Trading?
    ensures Locked(s.calls, s.At(call).hash)
  {
  }

  predicate LeavesAlone(a: Action, call: int) { !(a == Commit(call) || a == Abort(call)) }

  /** A token changes only by the trade that holds it; any other write waits. */
  lemma StepSparesHeld(s: State, a: Action, call: int)
    requires Valid(s) && Held(s) && s.At(call).Trading? && LeavesAlone(a, call)
    ensures Step(s, a).At(call) == s.At(call) && Usable(Step(s, a), s.At(call).hash, s.At(call).now)
  {
    var c := s.At(call);
    TradingLocks(s, call);
    assert Usable(s, c.hash, c.now);
    if a.Commit? && s.At(a.call).Trading? {
      assert s.At(a.call).hash != c.hash;
    }
  }

  lemma StepKeepsHeld(s: State, a: Action)
    requires Valid(s) && Held(s)
    ensures Held(Step(s, a))
  {
    var t := Step(s, a);
    forall call | t.At(call).Trading?
      ensures Usable(t, t.At(call).hash, t.At(call).now)
      ensures s.At(call).Trading? ==> t.At(call) == s.At(call)
      ensures !s.At(call).Trading? ==>
                a.Refresh? && a.call == call && t.At(call).hash == a.hash && !Locked(s.calls, a.hash)
    {
      if s.At(call).Trading? { StepSparesHeld(s, a, call); }
    }
    forall call, other | t.At(call).Trading? && t.At(other).Trading? && t.At(call).hash == t.At(other).hash
      ensures call == other
    {
      if s.At(call).Trading? { TradingLocks(s, call); }
      if s.At(other).Trading? { TradingLocks(s, other); }
    }
  }

  ghost predicate Sound(s: State) { Valid(s) && Held(s) }

  /** What a trade under way may count on. */
  predicate Holds(s: State, call: int)
    requires s.At(call).Trading?
  {
    Usable(s, s.At(call).hash, s.At(call).now) && s.At(call).hash in s.links
  }

  lemma SoundHolds(s: State, call: int)
    requires Sound(s) && s.At(call).Trading?
    ensures Holds(s, call)
  {
    assert Usable(s, s.At(call).hash, s.At(call).now);
  }

  lemma {:induction false} RunKeepsSound(s: State, actions: seq<Action>)
    requires Sound(s)
    ensures Sound(Run(s, actions))
    decreases |actions|
  {
    if actions != [] {
      StepKeepsValid(s, actions[0]);
      StepKeepsHeld(s, actions[0]);
      RunKeepsSound(Step(s, actions[0]), actions[1..]);
    }
  }

  /** However calls interleave, two stored tokens of one login share owner and expiry and are not both unrevoked. */
  lemma OneLiveTokenPerLogin(actions: seq<Action>, h: int, g: int)
    requires var s := Run(EMPTY, actions);
             h in s.tokens && g in s.tokens && h in s.links && g in s.links && s.links[h].login == s.links[g].login
    ensures var s := Run(EMPTY, actions);
            && s.tokens[h].userID == s.tokens[g].userID && s.tokens[h].expiresAt == s.tokens[g].expiresAt
            && (s.tokens[h].revokedAt.None? && s.tokens[g].revokedAt.None? ==> h == g)
  {
    RunKeepsSound(EMPTY, actions);
    var s := Run(EMPTY, actions);
    if s.tokens[h].revokedAt.None? && s.tokens[g].revokedAt.None? {
      assert IsLast(s, h) && IsLast(s, g);
    }
  }

  /** No hash is ever traded in twice, and a chain never forks. */
  lemma TokensAreSingleUse(actions: seq<Action>)
    ensures var s := Run(EMPTY, actions); TradedOnce(s) && LinksLinear(s)
    ensures var s := Run(EMPTY, actions); forall h, g, k :: Follows(s, h, g) && Follows(s, h, k) ==> g == k
  {
    RunKeepsSound(EMPTY, actions);
  }

  /**
   A trade begins exactly on a token that is stored, unrevoked, unexpired and held by nobody else; one that has begun
   commits exactly when its owner is active by then and the draw is new, however long it took, and changes two tokens.
   */
  lemma RefreshSucceedsWhen(actions: seq<Action>, call: int, hash: int, next: int, now: int)
    ensures var s := Run(EMPTY, actions);
            s.At(call).Idle? ==>
              (Step(s, Refresh(call, hash, next, now)).At(call) == Trading(hash, next, now) <==>
               && hash in s.tokens && s.tokens[hash].revokedAt.None? && now < s.tokens[hash].expiresAt
               && forall other :: s.At(other).Trading? ==> s.At(other).hash != hash)
    ensures var s := Run(EMPTY, actions); var (t, outcome) := Rotated(s, hash, next, now);
            s.At(call) == Trading(hash, next, now) ==>
              && hash in s.tokens
              && (outcome.Refreshed? <==> s.tokens[hash].userID in s.active && !Drawn(s, next))
              && (outcome.Refreshed? ==>
                    && t.tokens[next] == Token(s.tokens[hash].userID, s.tokens[hash].expiresAt, None)
                    && t.tokens[hash].revokedAt == Some(now) && Follows(t, hash, next)
                    && forall h :: h != hash && h in s.tokens ==> h in t.tokens && t.tokens[h] == s.tokens[h])
  {
    RunKeepsSound(EMPTY, actions);
    var s := Run(EMPTY, actions);
    if s.At(call).Trading? { assert Usable(s, s.At(call).hash, s.At(call).now); }
    LockedByATrade(s, hash);
  }

  lemma LockedByATrade(s: State, hash: int)
    ensures Locked(s.calls, hash) <==> exists call :: s.At(call).Trading? && s.At(call).hash == hash
  {
    forall call | call in s.calls && s.calls[call].Trading? && s.calls[call].hash == hash
      ensures s.At(call) == s.calls[call]
    {
    }
    if other :| s.At(other).Trading? && s.At(other).hash == hash { TradingLocks(s, other); }
  }

  /**
   No login is refreshed into its thirty-first day: every trade under way, and every one that could begin, comes within
   thirty days of the sign-in its token descends from, whatever trades lie between.
   */
  lemma NoLoginOutlivesThirtyDays(actions: seq<Action>, hash: int, now: int)
    ensures var s := Run(EMPTY, actions);
            (hash in s.tokens && s.tokens[hash].revokedAt.None? && now < s.tokens[hash].expiresAt) ==>
              && hash in s.links && s.links[hash].login < |s.logins|
              && s.logins[s.links[hash].login].userID == s.tokens[hash].userID
              && now < s.logins[s.links[hash].login].since + 30 * DAY
    ensures var s := Run(EMPTY, actions);
            forall call :: s.At(call).Trading? ==>
              var c := s.At(call);
              && c.hash in s.links && s.links[c.hash].login < |s.logins|
              && c.now < s.logins[s.links[c.hash].login].since + 30 * DAY
  {
    RunKeepsSound(EMPTY, actions);
    var s := Run(EMPTY, actions);
    forall call | s.At(call).Trading? ensures Usable(s, s.At(call).hash, s.At(call).now) {}
  }

  /** A replay within the grace is refused and changes nothing. */
  lemma ReplayWithinGrace(s: State, call: int, hash: int, next: int, now: int)
    requires hash in s.tokens && s.tokens[hash].revokedAt.Some? && now <= s.tokens[hash].revokedAt.value + REUSE_GRACE
    ensures Step(s, Refresh(call, hash, next, now)) == s
  {
  }

  /** One past it, with none of the owner's tokens held by a trade, revokes them all, and touches nobody else's. */
  lemma ReplayPastGrace(s: State, call: int, hash: int, next: int, now: int)
    requires Sound(s) && s.At(call).Idle?
    requires hash in s.tokens && s.tokens[hash].revokedAt.Some? && s.tokens[hash].revokedAt.value + REUSE_GRACE < now
    requires forall h :: h in s.tokens && s.tokens[h].userID == s.tokens[hash].userID && s.tokens[h].revokedAt.None? ==>
               !Locked(s.calls, h)
    ensures var t := Step(Step(s, Refresh(call, hash, next, now)), Commit(call));
            && t.tokens.Keys == s.tokens.Keys
            && (forall h :: h in t.tokens && t.tokens[h].userID == s.tokens[hash].userID ==> t.tokens[h].revokedAt.Some?)
            && (forall h :: h in t.tokens && (s.tokens[h].userID != s.tokens[hash].userID || s.tokens[h].revokedAt.Some?)
                  ==> t.tokens[h] == s.tokens[h])
  {
    ReusedIsNotHeld(s, hash, now);
    var u := Step(s, Refresh(call, hash, next, now));
    var seen := Unrevoked(s.tokens, s.tokens[hash].userID);
    assert u.At(call) == Revoking(seen, now) && u.tokens == s.tokens;
    forall h | h in seen ensures !Locked(u.calls, h) { assert !Locked(s.calls, h); }
    assert !RevocationWaits(u.calls, seen);
  }

  lemma ReusedIsNotHeld(s: State, hash: int, now: int)
    requires Held(s) && Reused(s, hash, now)
    ensures !Locked(s.calls, hash)
  {
    forall call | call in s.calls && s.calls[call].Trading? ensures s.calls[call].hash != hash {
      assert s.At(call) == s.calls[call];
    }
  }

  /** A traded token is refused for ever after: no later run trades it again or makes it usable. */
  lemma {:induction false} TradedStaysDead(s: State, actions: seq<Action>, hash: int, now: int)
    requires Valid(s) && hash in s.traded
    ensures !Usable(Run(s, actions), hash, now)
    decreases |actions|
  {
    if actions == [] {
      var g :| Follows(s, hash, g);
      assert hash in s.links && !IsLast(s, hash);
    } else {
      StepKeepsValid(s, actions[0]);
      TradedStaysDead(Step(s, actions[0]), actions[1..], hash, now);
    }
  }

  // ---- a session that has ended has ended for good ----

  /** No stored token of the login is unrevoked. */
  ghost predicate Over(s: State, login: nat) {
    login < |s.logins| && forall h :: h in s.tokens && h in s.links && s.links[h].login == login ==>
      s.tokens[h].revokedAt.Some?
  }

  lemma StepKeepsOver(s: State, a: Action, login: nat)
    requires Sound(s) && Over(s, login)
    ensures Over(Step(s, a), login)
  {
    var t := Step(s, a);
    if a.Commit? && s.At(a.call).Trading? { assert Usable(s, s.At(a.call).hash, s.At(a.call).now); }
    forall h | h in t.tokens && h in t.links && t.links[h].login == login ensures t.tokens[h].revokedAt.Some? {
      assert h in s.tokens && h in s.links && s.links[h].login == login ==> s.tokens[h].revokedAt.Some?;
    }
  }

  lemma {:induction false} RunKeepsOver(s: State, actions: seq<Action>, login: nat)
    requires Sound(s) && Over(s, login)
    ensures Over(Run(s, actions), login)
    decreases |actions|
  {
    if actions != [] {
      StepKeepsValid(s, actions[0]);
      StepKeepsHeld(s, actions[0]);
      StepKeepsOver(s, actions[0], login);
      RunKeepsOver(Step(s, actions[0]), actions[1..], login);
    }
  }

  /**
   Once no token of a login is unrevoked, no later run makes any hash of it usable, those it may yet hold included: a
   session ends for good, however it ended.
   */
  lemma OverIsForGood(s: State, actions: seq<Action>, login: nat, hash: int, now: int)
    requires Sound(s) && Over(s, login)
    requires var t := Run(s, actions); hash in t.links && t.links[hash].login == login
    ensures !Usable(Run(s, actions), hash, now)
  {
    RunKeepsOver(s, actions, login);
  }

  /**
   Signing out with an unrevoked token, or a trade that finds its owner no longer active, ends its session: none of the
   login's other tokens was unrevoked either.
   */
  lemma RevokingTheLastEndsIt(s: State, hash: int, next: int, now: int)
    requires Valid(s) && hash in s.tokens && s.tokens[hash].revokedAt.None?
    ensures Over(SignedOut(s, hash, now), s.links[hash].login)
    ensures now < s.tokens[hash].expiresAt && s.tokens[hash].userID !in s.active ==>
              Over(Rotated(s, hash, next, now).0, s.links[hash].login)
  {
    forall h | h in s.tokens && h in s.links && s.links[h].login == s.links[hash].login && h != hash
      ensures s.tokens[h].revokedAt.Some?
    {
      assert s.tokens[h].revokedAt.None? ==> IsLast(s, h);
      assert IsLast(s, hash);
    }
  }

  // ---- what a revocation misses ----

  /** History only grows, and a hash once drawn is never stored or unrevoked anew. */
  ghost predicate Grows(s: State, t: State) {
    && s.logins <= t.logins && s.traded <= t.traded
    && (forall h :: h in s.links ==> h in t.links && t.links[h] == s.links[h])
    && (forall h :: h in s.links && h in t.tokens ==>
          && h in s.tokens && t.tokens[h].userID == s.tokens[h].userID
          && (t.tokens[h].revokedAt.None? ==> s.tokens[h].revokedAt.None?))
  }

  lemma RotatedGrows(s: State, hash: int, next: int, now: int)
    requires Valid(s)
    ensures Grows(s, Rotated(s, hash, next, now).0)
  {
  }

  lemma SignedInGrows(s: State, userID: int, hash: int, now: int)
    requires Valid(s)
    ensures Grows(s, SignedIn(s, userID, hash, now))
  {
  }

  lemma StepGrows(s: State, a: Action)
    requires Valid(s)
    ensures Grows(s, Step(s, a))
  {
    match a
    case SignIn(userID, hash, now) => SignedInGrows(s, userID, hash, now);
    case Commit(call) =>
      var c := s.At(call);
      if c.Trading? { RotatedGrows(s, c.hash, c.next, c.now); }
    case _ =>
  }

  lemma {:induction false} RunGrows(s: State, actions: seq<Action>)
    requires Sound(s)
    ensures Grows(s, Run(s, actions))
    decreases |actions|
  {
    if actions != [] {
      StepGrows(s, actions[0]);
      StepKeepsValid(s, actions[0]);
      StepKeepsHeld(s, actions[0]);
      RunGrows(Step(s, actions[0]), actions[1..]);
    }
  }

  lemma {:induction false} RevokingWaits(s: State, actions: seq<Action>, call: int)
    requires s.At(call).Revoking? && forall i :: 0 <= i < |actions| ==> LeavesAlone(actions[i], call)
    ensures Run(s, actions).At(call) == s.At(call)
    decreases |actions|
  {
    if actions != [] { RevokingWaits(Step(s, actions[0]), actions[1..], call); }
  }

  /** What a revocation begun in `s` finds when it commits, `between` having come in between. */
  function Meanwhile(s: State, call: int, hash: int, next: int, now: int, between: seq<Action>): State {
    Run(Step(s, Refresh(call, hash, next, now)), between)
  }

  /**
   A detected theft ends a login of its owner exactly when no token drawn since the revocation's update began is left
   unrevoked when it is done, whatever else comes in between.
   */
  lemma TheftEndsASessionExactlyWhen(
    s: State, call: int, hash: int, next: int, now: int, between: seq<Action>, login: nat)
    requires Sound(s) && s.At(call).Idle?
    requires hash in s.tokens && s.tokens[hash].revokedAt.Some? && s.tokens[hash].revokedAt.value + REUSE_GRACE < now
    requires login < |s.logins| && s.logins[login].userID == s.tokens[hash].userID
    requires forall i :: 0 <= i < |between| ==> LeavesAlone(between[i], call)
    requires var seen := Unrevoked(s.tokens, s.tokens[hash].userID);
             !RevocationWaits(Meanwhile(s, call, hash, next, now, between).calls, seen)
    ensures var u := Meanwhile(s, call, hash, next, now, between);
            Over(Step(u, Commit(call)), login) <==>
            forall h :: h in u.tokens && h in u.links && u.links[h].login == login && u.tokens[h].revokedAt.None? ==>
              Drawn(s, h)
  {
    var owner := s.tokens[hash].userID;
    var seen := Unrevoked(s.tokens, owner);
    ReusedIsNotHeld(s, hash, now);
    var s1 := Step(s, Refresh(call, hash, next, now));
    assert s1.At(call) == Revoking(seen, now);
    StepKeepsValid(s, Refresh(call, hash, next, now));
    StepKeepsHeld(s, Refresh(call, hash, next, now));
    RevokingWaits(s1, between, call);
    RunGrows(s1, between);
    RunKeepsSound(s1, between);
    var u := Run(s1, between);
    var t := Step(u, Commit(call));
    assert t.tokens == SeenRevoked(u.tokens, seen, now);
    forall h | h in u.tokens && h in u.links && u.links[h].login == login && u.tokens[h].revokedAt.None?
      ensures h in seen <==> Drawn(s, h)
    {
      assert u.tokens[h].userID == u.logins[login].userID == s.logins[login].userID;
      if h in seen { assert h in s.tokens && h in s.links; }
    }
    SeenAreRevoked(u, seen, now, login, t, s);
  }

  lemma SeenAreRevoked(u: State, seen: set<int>, now: int, login: nat, t: State, s: State)
    requires t.tokens == SeenRevoked(u.tokens, seen, now) && t.links == u.links && t.logins == u.logins
    requires login < |u.logins|
    requires forall h :: h in u.tokens && h in u.links && u.links[h].login == login && u.tokens[h].revokedAt.None? ==>
               (h in seen <==> Drawn(s, h))
    ensures Over(t, login) <==>
            forall h :: h in u.tokens && h in u.links && u.links[h].login == login && u.tokens[h].revokedAt.None? ==>
              Drawn(s, h)
  {
    assert t.tokens.Keys == u.tokens.Keys;
    if Over(t, login) {
      forall h | h in u.tokens && h in u.links && u.links[h].login == login && u.tokens[h].revokedAt.None?
        ensures Drawn(s, h)
      {
        assert h in t.tokens && t.tokens[h].revokedAt.Some?;
      }
    }
  }

  /** A trade of the login committed between two states. */
  ghost predicate TradedFor(s: State, t: State, login: nat) {
    exists i :: |s.traded| <= i < |t.traded| && t.traded[i] in t.links && t.links[t.traded[i]].login == login
  }

  lemma StepDrawsByTrade(s: State, a: Action, h: int)
    requires Sound(s) && !Drawn(s, h)
    requires var t := Step(s, a); h in t.links && t.links[h].login < |s.logins|
    ensures TradedFor(s, Step(s, a), Step(s, a).links[h].login)
  {
    var t := Step(s, a);
    var c := s.At(a.call);
    assert t.traded[|s.traded|] == c.hash;
  }

  /** A new token of a login that was there before comes by a trade. */
  lemma {:induction false} RunDrawsByTrade(s: State, actions: seq<Action>, h: int)
    requires Sound(s) && !Drawn(s, h)
    requires var u := Run(s, actions); h in u.links && u.links[h].login < |s.logins|
    ensures TradedFor(s, Run(s, actions), Run(s, actions).links[h].login)
    decreases |actions|
  {
    if actions != [] {
      var t, u := Step(s, actions[0]), Run(s, actions);
      StepGrows(s, actions[0]);
      StepKeepsValid(s, actions[0]);
      StepKeepsHeld(s, actions[0]);
      RunGrows(t, actions[1..]);
      if Drawn(t, h) {
        StepDrawsByTrade(s, actions[0], h);
        var i :|
          |s.traded| <= i < |t.traded| && t.traded[i] in t.links && t.links[t.traded[i]].login == t.links[h].login;
        assert u.traded[i] == t.traded[i];
      } else {
        RunDrawsByTrade(t, actions[1..], h);
      }
    }
  }

  /** So it ends every login of the owner in which no trade committed since: nothing else draws a token for one. */
  lemma TheftEndsEverySession(
    s: State, call: int, hash: int, next: int, now: int, between: seq<Action>, login: nat)
    requires Sound(s) && s.At(call).Idle?
    requires hash in s.tokens && s.tokens[hash].revokedAt.Some? && s.tokens[hash].revokedAt.value + REUSE_GRACE < now
    requires login < |s.logins| && s.logins[login].userID == s.tokens[hash].userID
    requires forall i :: 0 <= i < |between| ==> LeavesAlone(between[i], call)
    requires var seen := Unrevoked(s.tokens, s.tokens[hash].userID);
             !RevocationWaits(Meanwhile(s, call, hash, next, now, between).calls, seen)
    requires !TradedFor(s, Meanwhile(s, call, hash, next, now, between), login)
    ensures Over(Step(Meanwhile(s, call, hash, next, now, between), Commit(call)), login)
  {
    var s1 := Step(s, Refresh(call, hash, next, now));
    var u := Meanwhile(s, call, hash, next, now, between);
    StepKeepsValid(s, Refresh(call, hash, next, now));
    StepKeepsHeld(s, Refresh(call, hash, next, now));
    forall h | h in u.links && u.links[h].login == login ensures Drawn(s, h) {
      if !Drawn(s, h) { RunDrawsByTrade(s1, between, h); }
    }
    TheftEndsASessionExactlyWhen(s, call, hash, next, now, between, login);
  }

  /**
   A revocation that finds a token of the owner held by a trade waits for it, and then misses the token the trade has
   just drawn: the session goes on.
   */
  lemma ATradeUnderWaySurvives(s: State, trade: int, theft: int)
    requires Sound(s) && s.At(trade).Trading? && s.At(theft).Revoking?
    requires var (c, seen) := (s.At(trade), s.At(theft).seen);
             && c.hash in s.tokens && s.tokens[c.hash].userID in s.active && !Drawn(s, c.next)
             && c.hash in seen && seen <= s.tokens.Keys && forall h :: h in seen && Locked(s.calls, h) ==> h == c.hash
    ensures var (c, t) := (s.At(trade), Step(s, Commit(trade)));
            var u := Step(t, Commit(theft));
            && Step(s, Commit(theft)) == s
            && (forall h :: h in s.At(theft).seen ==> h in u.tokens && u.tokens[h].revokedAt.Some?)
            && Usable(u, c.next, c.now) && !Over(u, s.links[c.hash].login)
  {
    var c, seen := s.At(trade), s.At(theft).seen;
    TradingLocks(s, trade);
    assert Usable(s, c.hash, c.now);
    var t := Step(s, Commit(trade));
    assert t.At(theft) == s.At(theft) && Usable(t, c.next, c.now);
    forall h | h in seen ensures !Locked(t.calls, h) {
      OnlyHolderLocks(s, trade, t.calls, h);
    }
    assert !RevocationWaits(t.calls, seen);
    var u := Step(t, Commit(theft));
    assert u.tokens == SeenRevoked(t.tokens, seen, s.At(theft).now);
  }

  lemma OnlyHolderLocks(s: State, trade: int, after: map<int, Call>, h: int)
    requires Held(s) && s.At(trade).Trading? && after == s.calls[trade := Idle]
    requires Locked(s.calls, h) ==> h == s.At(trade).hash
    ensures !Locked(after, h)
  {
    forall call | call in after && after[call].Trading? ensures after[call].hash != h {
      assert s.At(call) == s.calls[call] == after[call];
      assert s.calls[call].hash == h ==> Locked(s.calls, h);
    }
  }

  lemma Unrolled(s: State, a: Action, rest: seq<Action>)
    ensures Run(s, [a] + rest) == Run(Step(s, a), rest)
  {
    assert ([a] + rest)[1..] == rest;
  }

  const OLD := Token(7, REFRESH_TTL, Some(1))
  const NEW := Token(7, REFRESH_TTL, None)

  /** User 7 has signed in at 0 and traded the first token, 101, for 102 at 1. */
  const TRADED_ONCE := State(
    map[101 := OLD, 102 := NEW], {7}, map[1 := Idle], map[101 := Link(0, 0), 102 := Link(0, 1)],
    [Login(7, 0)], [101])

  lemma SignInAndTrade()
    ensures Run(EMPTY, [SetActive(7, true)] + ([SignIn(7, 101, 0)] + ([Refresh(1, 101, 102, 1)] + ([Commit(1)] + []))))
            == TRADED_ONCE
  {
    var s1 := State(map[], {7}, map[], map[], [], []);
    var s2 := State(map[101 := NEW], {7}, map[], map[101 := Link(0, 0)], [Login(7, 0)], []);
    var s3 := s2.(calls := map[1 := Trading(101, 102, 1)]);
    assert Step(EMPTY, SetActive(7, true)) == s1;
    assert SignedIn(s1, 7, 101, 0).tokens == s2.tokens;
    assert Step(s1, SignIn(7, 101, 0)) == s2;
    assert Step(s2, Refresh(1, 101, 102, 1)) == s3;
    assert Step(s3, Commit(1)) == TRADED_ONCE;
    Unrolled(s3, Commit(1), []);
    Unrolled(s2, Refresh(1, 101, 102, 1), [Commit(1)] + []);
    Unrolled(s1, SignIn(7, 101, 0), [Refresh(1, 101, 102, 1)] + ([Commit(1)] + []));
    Unrolled(EMPTY, SetActive(7, true), [SignIn(7, 101, 0)] + ([Refresh(1, 101, 102, 1)] + ([Commit(1)] + [])));
  }

  lemma {:induction false} RunConcat(s: State, a: seq<Action>, b: seq<Action>)
    ensures Run(s, a + b) == Run(Run(s, a), b)
    decreases |a|
  {
    if a == [] {
      assert a + b == b;
    } else {
      assert (a + b)[1..] == a[1..] + b;
      RunConcat(Step(s, a[0]), a[1..], b);
    }
  }

  /** Six steps from nothing: a login, a trade, and over half a minute later a second trade and a theft. */
  lemma ATradeUnderWayIsReached() returns (actions: seq<Action>)
    ensures var s := Run(EMPTY, actions);
            && s.At(1) == Trading(102, 103, 40_000_000) && s.At(2) == Revoking({102}, 40_000_000)
            && s.calls.Keys == {1, 2} && s.tokens.Keys == {101, 102} && s.tokens[102].userID == 7
            && 7 in s.active && !Drawn(s, 103)
  {
    var first := [SetActive(7, true)] + ([SignIn(7, 101, 0)] + ([Refresh(1, 101, 102, 1)] + ([Commit(1)] + [])));
    var trade, theft := Refresh(1, 102, 103, 40_000_000), Refresh(2, 101, 104, 40_000_000);
    actions := first + ([trade] + ([theft] + []));
    SignInAndTrade();
    RunConcat(EMPTY, first, [trade] + ([theft] + []));
    var s := TRADED_ONCE;
    var t := s.(calls := map[1 := Trading(102, 103, 40_000_000)]);
    assert Step(s, trade) == t;
    Unrolled(s, trade, [theft] + []);
    Unrolled(t, theft, []);
    assert Reused(t, 101, 40_000_000) && !Locked(t.calls, 101) && Unrevoked(t.tokens, 7) == {102};
  }

  /** From nothing to a session that outlives the theft detected in it. */
  lemma ASessionOutlivesTheft() returns (actions: seq<Action>)
    ensures var u := Step(Step(Run(EMPTY, actions), Commit(1)), Commit(2));
            && Run(EMPTY, actions).At(2).Revoking? && Usable(u, 103, 40_000_000)
  {
    actions := ATradeUnderWayIsReached();
    RunKeepsSound(EMPTY, actions);
    var s := Run(EMPTY, actions);
    forall h | h in {102} && Locked(s.calls, h) ensures h == s.At(1).hash {}
    ATradeUnderWaySurvives(s, 1, 2);
  }

  // ---- the repository, updated in place ----

  class Repository {
    var tokens: map<int, Token>
    var active: set<int>
    var calls: map<int, Call>
    ghost var links: map<int, Link>
    ghost var logins: seq<Login>
    ghost var traded: seq<int>

    ghost function Snapshot(): State
      reads this
    {
      State(tokens, active, calls, links, logins, traded)
    }

    constructor ()
      ensures Snapshot() == EMPTY
    {
      tokens, active, calls, links, logins, traded := map[], {}, map[], map[], [], [];
    }

    function At(call: int): Call
      reads this
    {
      if call in calls then calls[call] else Idle
    }

    /** The first link of a new chain, after a sweep of what has run out. A draw is new, or collides with one stored. */
    method CreateRefreshToken(userID: int, hash: int, now: int) returns (waits: bool)
      requires hash in links <==> hash in tokens
      modifies this
      ensures Snapshot() == Step(old(Snapshot()), SignIn(userID, hash, now))
      ensures waits <==> SignInWaits(old(tokens), old(calls), userID, now)
      ensures waits || hash in old(tokens) ==> tokens == old(tokens)
      ensures !waits && hash !in old(tokens) ==>
                && hash in tokens && tokens[hash] == Token(userID, now + REFRESH_TTL, None)
                && forall h :: h != hash ==>
                     && (h in tokens <==>
                           h in old(tokens) && !(old(tokens)[h].userID == userID && old(tokens)[h].expiresAt <= now))
                     && (h in tokens ==> tokens[h] == old(tokens)[h])
    {
      if SignInWaits(tokens, calls, userID, now) { return true; }
      if hash in tokens { return false; }
      tokens := map h | h in tokens && !Expired(tokens[h], userID, now) :: tokens[h];
      tokens := tokens[hash := Token(userID, now + REFRESH_TTL, None)];
      links := links[hash := Link(|logins|, 0)];
      logins := logins + [Login(userID, now)];
      return false;
    }

    /** The conditional update, or the search for a theft when it finds nothing; `None` when there is more to do. */
    method BeginRotate(call: int, hash: int, next: int, now: int) returns (outcome: Option<Outcome>)
      requires At(call).Idle? && !Locked(calls, hash)
      modifies this`calls
      ensures Snapshot() == Step(old(Snapshot()), Refresh(call, hash, next, now))
      ensures At(call) == Trading(hash, next, now) <==>
                hash in tokens && tokens[hash].revokedAt.None? && now < tokens[hash].expiresAt
      ensures At(call).Revoking? <==>
                hash in tokens && tokens[hash].revokedAt.Some? && tokens[hash].revokedAt.value + REUSE_GRACE < now
      ensures At(call).Revoking? ==>
                && At(call).now == now
                && forall h :: h in At(call).seen <==>
                     h in tokens && tokens[h].userID == tokens[hash].userID && tokens[h].revokedAt.None?
      ensures outcome == if At(call).Idle? then Some(InvalidToken) else None
      ensures calls == if outcome.Some? then old(calls) else old(calls)[call := At(call)]
    {
      if hash in tokens && tokens[hash].revokedAt.None? && now < tokens[hash].expiresAt {
        calls := calls[call := Trading(hash, next, now)];
        return None;
      }
      var reused := SeeReused(hash, now);
      if !reused { return Some(InvalidToken); }
      calls := calls[call := Revoking(Unrevoked(tokens, tokens[hash].userID), now)];
      return None;
    }

    method SeeReused(hash: int, now: int) returns (reused: bool)
      ensures reused <==>
                hash in tokens && tokens[hash].revokedAt.Some? && tokens[hash].revokedAt.value + REUSE_GRACE < now
    {
      reused :=
        hash in tokens && tokens[hash].revokedAt.Some? && tokens[hash].revokedAt.value < now - REUSE_GRACE;
    }

    /** The trade's second half and commit: a draw that collides rolls the whole trade back. */
    method EndRotate(call: int) returns (outcome: Outcome)
      requires At(call).Trading? && Holds(Snapshot(), call) && (At(call).next in links <==> At(call).next in tokens)
      modifies this
      ensures Snapshot() == Step(old(Snapshot()), Commit(call))
      ensures var c, was := old(At(call)), old(tokens);
              var (held, revoked) := (was[c.hash], was[c.hash := was[c.hash].(revokedAt := Some(c.now))]);
              (outcome, tokens) ==
                if held.userID !in active then (InvalidToken, revoked)
                else if c.next in was then (Failed, was)
                else (Refreshed(held.userID), revoked[c.next := Token(held.userID, held.expiresAt, None)])
      ensures !At(call).Trading? && active == old(active)
    {
      var Trading(hash, next, now) := calls[call];
      calls := calls[call := Idle];
      var held := tokens[hash];
      if held.userID in active && next in tokens { return Failed; }
      tokens := tokens[hash := held.(revokedAt := Some(now))];
      if held.userID !in active { return InvalidToken; }
      tokens := tokens[next := Token(held.userID, held.expiresAt, None)];
      links := links[next := Link(links[hash].login, links[hash].place + 1)];
      traded := traded + [hash];
      return Refreshed(held.userID);
    }

    /** Revokes every token the search saw, once none of them is held. */
    method EndRevoke(call: int) returns (waits: bool)
      requires At(call).Revoking?
      modifies this
      ensures Snapshot() == Step(old(Snapshot()), Commit(call))
      ensures waits <==> old(RevocationWaits(calls, At(call).seen))
      ensures !waits ==> forall h :: h in old(At(call)).seen && h in tokens ==> tokens[h].revokedAt.Some?
      ensures forall h :: h in tokens && h !in old(At(call)).seen ==> h in old(tokens) && tokens[h] == old(tokens)[h]
    {
      var Revoking(seen, now) := calls[call];
      if RevocationWaits(calls, seen) { return true; }
      tokens := SeenRevoked(tokens, seen, now);
      calls := calls[call := Idle];
      return false;
    }

    /** A refresh nothing comes between. */
    method RotateRefreshToken(call: int, hash: int, next: int, now: int) returns (outcome: Outcome)
      requires Sound(Snapshot()) && At(call).Idle? && !Locked(calls, hash) && (next in links <==> next in tokens)
      requires hash in tokens ==> forall h :: h in Unrevoked(tokens, tokens[hash].userID) ==> !Locked(calls, h)
      modifies this
      ensures var s := old(Snapshot());
              && (outcome.Refreshed? <==>
                    && hash in s.tokens && s.tokens[hash].revokedAt.None? && now < s.tokens[hash].expiresAt
                    && s.tokens[hash].userID in s.active && next !in s.tokens)
              && (outcome.TokenReuse? <==>
                    && hash in s.tokens && s.tokens[hash].revokedAt.Some?
                    && s.tokens[hash].revokedAt.value + REUSE_GRACE < now)
              && Snapshot() == Step(Step(s, Refresh(call, hash, next, now)), Commit(call))
    {
      ghost var s := Snapshot();
      StepKeepsValid(s, Refresh(call, hash, next, now));
      StepKeepsHeld(s, Refresh(call, hash, next, now));
      var ended := BeginRotate(call, hash, next, now);
      if ended.Some? { return InvalidToken; }
      if calls[call].Trading? {
        SoundHolds(Snapshot(), call);
        outcome := EndRotate(call);
      } else {
        assert tokens == s.tokens;
        forall h | h in calls[call].seen ensures !Locked(calls, h) { assert !Locked(s.calls, h); }
        var waits := EndRevoke(call);
        outcome := TokenReuse;
      }
    }

    method RevokeRefreshToken(hash: int, now: int) returns (waits: bool)
      modifies this
      ensures Snapshot() == Step(old(Snapshot()), SignOut(hash, now))
      ensures waits <==> old(Locked(calls, hash))
      ensures !waits && hash in old(tokens) && old(tokens)[hash].revokedAt.None? ==>
                tokens == old(tokens)[hash := old(tokens)[hash].(revokedAt := Some(now))]
      ensures waits || hash !in old(tokens) || old(tokens)[hash].revokedAt.Some? ==> tokens == old(tokens)
      ensures calls == old(calls) && active == old(active)
    {
      if Locked(calls, hash) { return true; }
      if hash in tokens && tokens[hash].revokedAt.None? {
        tokens := tokens[hash := tokens[hash].(revokedAt := Some(now))];
      }
      return false;
    }
  }
}
