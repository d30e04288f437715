/**
 The login limiter: two fixed-window counters nested in each other, the inner per email and address, the outer per email.

 A login is three steps other logins may come between: it counts against the IP's key, then against the email's, and only
 then has its password looked at. A `Run` is any interleaving of the steps of any number of logins, at times that never
 go back. A login that is cut off takes no further step.
 */
module Limiter {
  import opened Common
  import opened Calendar

  const MAX_ATTEMPTS_PER_IP := 10
  const IP_WINDOW := 15 * MINUTE
  const MAX_ATTEMPTS_PER_EMAIL := 100
  const EMAIL_WINDOW := HOUR

  datatype Key = IpKey(ip: string, email: string) | EmailKey(email: string)

  function Window(key: Key): int { if key.IpKey? then IP_WINDOW else EMAIL_WINDOW }

  /** A counter lives from the attempt that opened it until its window ends. */
  datatype Counter = Counter(since: int, count: nat)

  type Redis = map<Key, Counter>

  predicate Alive(redis: Redis, key: Key, now: int) { key in redis && now < redis[key].since + Window(key) }

  /** SETNX with the window, then INCR. */
  function Counted(redis: Redis, key: Key, now: int): Redis {
    redis[key := if Alive(redis, key, now) then redis[key].(count := redis[key].count + 1) else Counter(now, 1)]
  }

  datatype Stage = IpCounted | IpRefused | EmailRefused | AtPassword | Failed | LoggedIn

  /** When an attempt was counted against its email, and when the window it fell in had opened. */
  datatype Counting = Counting(at: int, window: int)

  datatype Attempt = Attempt(ip: string, email: string, ipAt: int, stage: Stage, counting: Option<Counting>) {
    predicate IsFrom(ip: string, email: string) { this.ip == ip && this.email == email }

    predicate Reached() { stage.AtPassword? || stage.Failed? || stage.LoggedIn? }
  }

  /** The counters, every login so far, and the time of the last step. */
  datatype State = State(redis: Redis, attempts: seq<Attempt>, clock: int)

  function Start(clock: int): State { State(map[], [], clock) }

  datatype Action =
    | CountIp(ip: string, email: string, now: int)
    | CountEmail(id: nat, now: int)
    | Check(id: nat, now: int, matches: bool)

  function IpCountedAt(s: State, ip: string, email: string, now: int): State {
    var redis := Counted(s.redis, IpKey(ip, email), now);
    var stage := if redis[IpKey(ip, email)].count > MAX_ATTEMPTS_PER_IP then IpRefused else IpCounted;
    State(redis, s.attempts + [Attempt(ip, email, now, stage, None)], now)
  }

  function EmailCountedAt(s: State, id: nat, now: int): State
    requires id < |s.attempts|
  {
    var a := s.attempts[id];
    var redis := Counted(s.redis, EmailKey(a.email), now);
    var counter := redis[EmailKey(a.email)];
    var stage := if counter.count > MAX_ATTEMPTS_PER_EMAIL then EmailRefused else AtPassword;
    State(redis, s.attempts[id := a.(stage := stage, counting := Some(Counting(now, counter.since)))], now)
  }

  /** `matches`: a live, active user has that password. A login frees the IP's key, and never the email's. */
  function CheckedAt(s: State, id: nat, now: int, matches: bool): State
    requires id < |s.attempts|
  {
    var a := s.attempts[id];
    if matches then State(s.redis - {IpKey(a.ip, a.email)}, s.attempts[id := a.(stage := LoggedIn)], now)
    else State(s.redis, s.attempts[id := a.(stage := Failed)], now)
  }

  function Step(s: State, a: Action): State {
    if a.now < s.clock then s
    else
      match a
      case CountIp(ip, email, now) => IpCountedAt(s, ip, email, now)
      case CountEmail(id, now) =>
        if id < |s.attempts| && s.attempts[id].stage.IpCounted? then EmailCountedAt(s, id, now) else s
      case Check(id, now, matches) =>
        if id < |s.attempts| && s.attempts[id].stage.AtPassword? then CheckedAt(s, id, now, matches) else s
  }

  function Run(s: State, actions: seq<Action>): State
    decreases |actions|
  {
    if actions == [] then s else Run(Step(s, actions[0]), actions[1..])
  }

  // ---- counting attempts ----

  function Count(attempts: seq<Attempt>, test: Attempt -> bool): nat {
    if attempts == [] then 0
    else Count(attempts[..|attempts| - 1], test) + if test(attempts[|attempts| - 1]) then 1 else 0
  }

  lemma CountAppend(attempts: seq<Attempt>, a: Attempt, test: Attempt -> bool)
    ensures Count(attempts + [a], test) == Count(attempts, test) + if test(a) then 1 else 0
  {
    assert (attempts + [a])[..|attempts|] == attempts;
  }

  lemma {:induction false} CountUpdate(attempts: seq<Attempt>, id: nat, a: Attempt, test: Attempt -> bool)
    requires id < |attempts|
    ensures Count(attempts[id := a], test)
            == Count(attempts, test) - (if test(attempts[id]) then 1 else 0) + if test(a) then 1 else 0
    decreases |attempts|
  {
    var last := |attempts| - 1;
    if id == last {
      assert attempts[id := a][..last] == attempts[..last];
    } else {
      assert attempts[id := a][..last] == attempts[..last][id := a];
      CountUpdate(attempts[..last], id, a, test);
    }
  }

  lemma {:induction false} CountAtMost(attempts: seq<Attempt>, test: Attempt -> bool, wider: Attempt -> bool)
    requires forall i :: 0 <= i < |attempts| && test(attempts[i]) ==> wider(attempts[i])
    ensures Count(attempts, test) <= Count(attempts, wider)
    decreases |attempts|
  {
    if attempts != [] { CountAtMost(attempts[..|attempts| - 1], test, wider); }
  }

  // ---- the windows ----

  /** A window gives way only to one that opens when it has ended. */
  predicate SameOrAfter(earlier: int, later: int) { later == earlier || later >= earlier + EMAIL_WINDOW }

  predicate AttemptOk(s: State, a: Attempt) {
    && a.ipAt <= s.clock
    && (a.counting.None? <==> a.stage.IpCounted? || a.stage.IpRefused?)
    && (a.counting.Some? ==>
          var c := a.counting.value;
          && a.ipAt <= c.at && c.window <= c.at < c.window + EMAIL_WINDOW
          && EmailKey(a.email) in s.redis && SameOrAfter(c.window, s.redis[EmailKey(a.email)].since))
  }

  ghost predicate Sound(s: State) {
    && (forall key :: key in s.redis ==> s.redis[key].since <= s.clock && s.redis[key].count >= 1)
    && (forall i :: 0 <= i < |s.attempts| ==> AttemptOk(s, s.attempts[i]))
  }

  lemma EmailCountedIsSound(s: State, id: nat, now: int)
    requires Sound(s) && s.clock <= now && id < |s.attempts| && s.attempts[id].stage.IpCounted?
    ensures Sound(EmailCountedAt(s, id, now))
  {
    var t := EmailCountedAt(s, id, now);
    forall i | 0 <= i < |t.attempts| ensures AttemptOk(t, t.attempts[i]) {
      assert AttemptOk(s, s.attempts[i]);
    }
  }

  lemma StepIsSound(s: State, a: Action)
    requires Sound(s)
    ensures Sound(Step(s, a))
  {
    var t := Step(s, a);
    if t != s {
      if a.CountEmail? {
        EmailCountedIsSound(s, a.id, a.now);
      } else {
        forall i | 0 <= i < |t.attempts| ensures AttemptOk(t, t.attempts[i]) {
          if i < |s.attempts| { assert AttemptOk(s, s.attempts[i]); }
        }
      }
    }
  }

  lemma {:induction false} RunIsSound(s: State, actions: seq<Action>)
    requires Sound(s)
    ensures Sound(Run(s, actions))
    decreases |actions|
  {
    if actions != [] {
      StepIsSound(s, actions[0]);
      RunIsSound(Step(s, actions[0]), actions[1..]);
    }
  }

  /** Every counted attempt lies inside the hour of the window it was counted in: counting extends none. */
  lemma CountedInsideItsWindow(clock: int, actions: seq<Action>, i: nat)
    requires var s := Run(Start(clock), actions); i < |s.attempts| && s.attempts[i].counting.Some?
    ensures var c := Run(Start(clock), actions).attempts[i].counting.value; c.window <= c.at < c.window + EMAIL_WINDOW
  {
    RunIsSound(Start(clock), actions);
    var s := Run(Start(clock), actions);
    assert AttemptOk(s, s.attempts[i]);
  }

  predicate Apart(a: Attempt, b: Attempt) {
    a.email == b.email && a.counting.Some? && b.counting.Some? ==>
      var one, other := a.counting.value.window, b.counting.value.window;
      SameOrAfter(one, other) || SameOrAfter(other, one)
  }

  ghost predicate AllApart(attempts: seq<Attempt>) {
    forall i, j :: 0 <= i < |attempts| && 0 <= j < |attempts| ==> Apart(attempts[i], attempts[j])
  }

  lemma StepKeepsApart(s: State, a: Action)
    requires Sound(s) && AllApart(s.attempts)
    ensures AllApart(Step(s, a).attempts)
  {
    var t := Step(s, a);
    StepIsSound(s, a);
    if a.CountEmail? && t != s {
      var counting := t.attempts[a.id].counting.value;
      forall i | 0 <= i < |t.attempts|
        ensures Apart(t.attempts[i], t.attempts[a.id]) && Apart(t.attempts[a.id], t.attempts[i])
      {
        assert AttemptOk(t, t.attempts[i]);
        assert t.redis[EmailKey(t.attempts[a.id].email)].since == counting.window;
      }
    }
  }

  lemma {:induction false} RunKeepsApart(s: State, actions: seq<Action>)
    requires Sound(s) && AllApart(s.attempts)
    ensures AllApart(Run(s, actions).attempts)
    decreases |actions|
  {
    if actions != [] {
      StepIsSound(s, actions[0]);
      StepKeepsApart(s, actions[0]);
      RunKeepsApart(Step(s, actions[0]), actions[1..]);
    }
  }

  /** The windows of one email never overlap: two attempts counted in different ones are in hours that do not meet. */
  lemma WindowsDoNotOverlap(clock: int, actions: seq<Action>, i: nat, j: nat)
    requires var attempts := Run(Start(clock), actions).attempts;
             && i < |attempts| && j < |attempts| && attempts[i].email == attempts[j].email
             && attempts[i].counting.Some? && attempts[j].counting.Some?
    ensures var attempts := Run(Start(clock), actions).attempts;
            var one, other := attempts[i].counting.value.window, attempts[j].counting.value.window;
            one == other || one + EMAIL_WINDOW <= other || other + EMAIL_WINDOW <= one
  {
    RunKeepsApart(Start(clock), actions);
    var attempts := Run(Start(clock), actions).attempts;
    assert Apart(attempts[i], attempts[j]);
  }

  // ---- the budget of an email ----

  /** Counted on the email in the window opened at `window`, and let through to the password check. */
  function ReachedIn(email: string, window: int): Attempt -> bool {
    (a: Attempt) => a.email == email && a.counting.Some? && a.counting.value.window == window && a.Reached()
  }

  /** Counted on the email in that window, refused or not. */
  function CountedOn(email: string, window: int): Attempt -> bool {
    (a: Attempt) => a.email == email && a.counting.Some? && a.counting.value.window == window
  }

  /** Only the counter of an email's current window can still grow, and the first hundred it counts reach the check. */
  ghost predicate EmailBudget(s: State, email: string, window: int) {
    var key, counted := EmailKey(email), Count(s.attempts, CountedOn(email, window));
    && Count(s.attempts, ReachedIn(email, window)) == Min(100, counted)
    && (counted > 0 ==> key in s.redis && window <= s.redis[key].since)
    && (key in s.redis && s.redis[key].since == window ==> counted == s.redis[key].count)
  }

  lemma EmailCountedKeepsBudget(s: State, id: nat, now: int, email: string, window: int)
    requires Sound(s) && EmailBudget(s, email, window)
    requires s.clock <= now && id < |s.attempts| && s.attempts[id].stage.IpCounted?
    ensures EmailBudget(EmailCountedAt(s, id, now), email, window)
  {
    var t := EmailCountedAt(s, id, now);
    assert AttemptOk(s, s.attempts[id]);
    CountUpdate(s.attempts, id, t.attempts[id], ReachedIn(email, window));
    CountUpdate(s.attempts, id, t.attempts[id], CountedOn(email, window));
  }

  lemma StepKeepsBudget(s: State, a: Action, email: string, window: int)
    requires Sound(s) && EmailBudget(s, email, window)
    ensures EmailBudget(Step(s, a), email, window)
  {
    var t := Step(s, a);
    if t != s {
      if a.CountEmail? {
        EmailCountedKeepsBudget(s, a.id, a.now, email, window);
      } else if a.CountIp? {
        CountAppend(s.attempts, t.attempts[|s.attempts|], ReachedIn(email, window));
        CountAppend(s.attempts, t.attempts[|s.attempts|], CountedOn(email, window));
      } else {
        CountUpdate(s.attempts, a.id, t.attempts[a.id], ReachedIn(email, window));
        CountUpdate(s.attempts, a.id, t.attempts[a.id], CountedOn(email, window));
      }
    }
  }

  lemma {:induction false} RunKeepsBudget(s: State, actions: seq<Action>, email: string, window: int)
    requires Sound(s) && EmailBudget(s, email, window)
    ensures EmailBudget(Run(s, actions), email, window)
    decreases |actions|
  {
    if actions != [] {
      StepIsSound(s, actions[0]);
      StepKeepsBudget(s, actions[0], email, window);
      RunKeepsBudget(Step(s, actions[0]), actions[1..], email, window);
    }
  }

  /**
   However logins interleave, and from any number of IPs: of those counted on an email in one window all reach the check
   up to a hundred, and not one more.
   */
  lemma AtMost100ReachThePassword(clock: int, actions: seq<Action>, email: string, window: int)
    ensures var attempts := Run(Start(clock), actions).attempts;
            Count(attempts, ReachedIn(email, window)) == Min(100, Count(attempts, CountedOn(email, window))) <= 100
  {
    RunKeepsBudget(Start(clock), actions, email, window);
  }

  // ---- the share of one IP that never succeeds ----

  function CountedIn(ip: string, email: string, window: int): Attempt -> bool {
    (a: Attempt) => a.IsFrom(ip, email) && a.counting.Some? && a.counting.value.window == window
  }

  /** Let by the IP's counter at a time in the span. */
  function AdmittedWithin(ip: string, email: string, first: int, until: int): Attempt -> bool {
    (a: Attempt) => a.IsFrom(ip, email) && !a.stage.IpRefused? && first <= a.ipAt < until
  }

  ghost predicate NeverSucceeds(attempts: seq<Attempt>, ip: string, email: string) {
    forall i :: 0 <= i < |attempts| && attempts[i].IsFrom(ip, email) ==> !attempts[i].stage.LoggedIn?
  }

  /** No attempt of the IP took longer than `gap` from its first count to its second. */
  ghost predicate Prompt(attempts: seq<Attempt>, ip: string, email: string, gap: nat) {
    forall i :: 0 <= i < |attempts| && attempts[i].IsFrom(ip, email) && attempts[i].counting.Some? ==>
      attempts[i].counting.value.at - attempts[i].ipAt <= gap
  }

  function CeilDiv(a: nat, b: nat): nat
    requires b > 0
  {
    (a + b - 1) / b
  }

  /** Ten for each IP window that can start in the span, and nine for one under way, which was opened before. */
  function Cap(span: nat): nat { MAX_ATTEMPTS_PER_IP * CeilDiv(span, IP_WINDOW) + 9 }

  /** The most of one email window that one IP can take when each of its attempts is counted twice within `gap`. */
  function Share(gap: nat): nat { Cap(EMAIL_WINDOW + gap) }

  function ShareBound(first: int, counter: Counter): int {
    var used := Min(counter.count, MAX_ATTEMPTS_PER_IP);
    if counter.since < first then used - 1
    else MAX_ATTEMPTS_PER_IP * ((counter.since - first) / IP_WINDOW) + 9 + used
  }

  ghost predicate IpShare(s: State, ip: string, email: string, first: int, until: int)
    requires first < until
  {
    var key, admitted := IpKey(ip, email), Count(s.attempts, AdmittedWithin(ip, email, first, until));
    NeverSucceeds(s.attempts, ip, email) && admitted > 0 ==>
      && first <= s.clock && key in s.redis
      && admitted <= ShareBound(first, s.redis[key]) && admitted <= Cap(until - first)
  }

  /** One more attempt under the limit raises the bound by one, and none lowers it. */
  lemma ShareBoundGrows(first: int, before: Counter, now: int, after: Counter)
    requires first <= now && before.since <= now && before.count >= 1
    requires after == if now < before.since + IP_WINDOW then before.(count := before.count + 1) else Counter(now, 1)
    ensures ShareBound(first, after)
            >= ShareBound(first, before) + if after.count <= MAX_ATTEMPTS_PER_IP then 1 else 0
    ensures ShareBound(first, after) >= 1
  {
    if before.since + IP_WINDOW <= now && first <= before.since {
      assert (before.since - first) / IP_WINDOW + 1 <= (now - first) / IP_WINDOW;
    }
  }

  lemma ShareBoundCap(first: int, counter: Counter, until: int)
    requires counter.since < until && first < until
    ensures ShareBound(first, counter) <= Cap(until - first)
  {
    if first <= counter.since {
      assert (counter.since - first) / IP_WINDOW + 1 <= CeilDiv(until - first, IP_WINDOW);
    }
  }

  lemma OwnArrivalKeepsShare(s: State, ip: string, email: string, now: int, first: int, until: int)
    requires first < until && Sound(s) && s.clock <= now && IpShare(s, ip, email, first, until)
    ensures IpShare(IpCountedAt(s, ip, email, now), ip, email, first, until)
  {
    var t := IpCountedAt(s, ip, email, now);
    var key := IpKey(ip, email);
    CountAppend(s.attempts, t.attempts[|s.attempts|], AdmittedWithin(ip, email, first, until));
    assert NeverSucceeds(t.attempts, ip, email) ==> NeverSucceeds(s.attempts, ip, email) by {
      assert forall i :: 0 <= i < |s.attempts| ==> t.attempts[i] == s.attempts[i];
    }
    if first <= now {
      if key in s.redis { ShareBoundGrows(first, s.redis[key], now, t.redis[key]); }
      if now < until { ShareBoundCap(first, t.redis[key], until); }
    }
  }

  lemma OtherStepKeepsShare(s: State, a: Action, ip: string, email: string, first: int, until: int)
    requires first < until && Sound(s) && IpShare(s, ip, email, first, until)
    requires !(a.CountIp? && a.ip == ip && a.email == email)
    ensures IpShare(Step(s, a), ip, email, first, until)
  {
    var t := Step(s, a);
    if t != s {
      if a.CountIp? {
        CountAppend(s.attempts, t.attempts[|s.attempts|], AdmittedWithin(ip, email, first, until));
        assert forall i :: 0 <= i < |s.attempts| ==> t.attempts[i] == s.attempts[i];
      } else {
        CountUpdate(s.attempts, a.id, t.attempts[a.id], AdmittedWithin(ip, email, first, until));
        assert forall i :: 0 <= i < |s.attempts| && i != a.id ==> t.attempts[i] == s.attempts[i];
      }
    }
  }

  lemma {:induction false} RunKeepsShare(
    s: State, actions: seq<Action>, ip: string, email: string, first: int, until: int)
    requires first < until && Sound(s) && IpShare(s, ip, email, first, until)
    ensures IpShare(Run(s, actions), ip, email, first, until)
    decreases |actions|
  {
    if actions != [] {
      var a := actions[0];
      StepIsSound(s, a);
      if a.CountIp? && a.ip == ip && a.email == email && s.clock <= a.now {
        OwnArrivalKeepsShare(s, ip, email, a.now, first, until);
      } else if !(a.CountIp? && a.ip == ip && a.email == email) {
        OtherStepKeepsShare(s, a, ip, email, first, until);
      }
      RunKeepsShare(Step(s, a), actions[1..], ip, email, first, until);
    }
  }

  /**
   However logins interleave, one IP that never succeeds takes at most `Share(gap)` of an email window, where `gap` is
   the longest any of its attempts took between its two counts.
   */
  lemma OneIpTakesItsShare(clock: int, actions: seq<Action>, ip: string, email: string, window: int, gap: nat)
    requires var attempts := Run(Start(clock), actions).attempts;
             NeverSucceeds(attempts, ip, email) && Prompt(attempts, ip, email, gap)
    ensures Count(Run(Start(clock), actions).attempts, CountedIn(ip, email, window)) <= Share(gap)
  {
    var s := Run(Start(clock), actions);
    var first, until := window - gap, window + EMAIL_WINDOW;
    RunIsSound(Start(clock), actions);
    RunKeepsShare(Start(clock), actions, ip, email, first, until);
    forall i | 0 <= i < |s.attempts| && CountedIn(ip, email, window)(s.attempts[i])
      ensures AdmittedWithin(ip, email, first, until)(s.attempts[i])
    {
      assert AttemptOk(s, s.attempts[i]);
    }
    CountAtMost(s.attempts, CountedIn(ip, email, window), AdmittedWithin(ip, email, first, until));
  }

  /** 49 when no time passes between the two counts, 59 within a quarter of an hour, never all 100 within 75 minutes. */
  lemma OneIpCannotExhaustAnEmail(clock: int, actions: seq<Action>, ip: string, email: string, window: int, gap: nat)
    requires var attempts := Run(Start(clock), actions).attempts;
             NeverSucceeds(attempts, ip, email) && Prompt(attempts, ip, email, gap)
    requires gap <= 75 * MINUTE
    ensures var counted := Count(Run(Start(clock), actions).attempts, CountedIn(ip, email, window));
            && counted <= 99
            && (gap <= 15 * MINUTE ==> counted <= 59)
            && (gap == 0 ==> counted <= 49)
  {
    OneIpTakesItsShare(clock, actions, ip, email, window, gap);
  }

  // ---- the share is reached: a burst held between its two counts ----

  lemma {:induction false} RunConcat(s: State, a: seq<Action>, b: seq<Action>)
    ensures Run(s, a + b) == Run(Run(s, a), b)
    decreases |a|
  {
    if a == [] {
      assert a + b == b;
    } else {
      assert (a + b)[1..] == a[1..] + b;
      RunConcat(Step(s, a[0]), a[1..], b);
    }
  }

  /** Every attempt but the first `skip` was counted in the window, within the gap. */
  ghost predicate AllCounted(attempts: seq<Attempt>, skip: nat, ip: string, email: string, window: int, gap: nat) {
    forall i :: skip <= i < |attempts| ==>
      && attempts[i].IsFrom(ip, email) && attempts[i].stage != LoggedIn
      && attempts[i].counting.Some? && attempts[i].counting.value.window == window
      && attempts[i].counting.value.at - attempts[i].ipAt <= gap
  }

  /** Every attempt but the first `skip` waits between its two counts, having come in the span. */
  ghost predicate AllWaiting(attempts: seq<Attempt>, skip: nat, ip: string, email: string, first: int, last: int) {
    forall i :: skip <= i < |attempts| ==>
      && attempts[i].IsFrom(ip, email) && attempts[i].stage.IpCounted? && attempts[i].counting.None?
      && first <= attempts[i].ipAt <= last
  }

  function UsedAt(s: State, key: Key, now: int): nat { if Alive(s.redis, key, now) then s.redis[key].count else 0 }

  /** `n` attempts at once, within what the IP has left. */
  lemma {:induction false} Arrive(s: State, ip: string, email: string, now: int, n: nat) returns (steps: seq<Action>)
    requires s.clock <= now && UsedAt(s, IpKey(ip, email), now) + n <= MAX_ATTEMPTS_PER_IP && n >= 1
    ensures var t, key := Run(s, steps), IpKey(ip, email);
            && t.clock == now && |t.attempts| == |s.attempts| + n && t.attempts[..|s.attempts|] == s.attempts
            && (forall i :: |s.attempts| <= i < |t.attempts| ==>
                  t.attempts[i] == Attempt(ip, email, now, IpCounted, None))
            && t.redis == s.redis[key := Counter(if Alive(s.redis, key, now) then s.redis[key].since else now,
                                                 UsedAt(s, key, now) + n)]
    decreases n
  {
    var u := Step(s, CountIp(ip, email, now));
    if n == 1 {
      steps := [CountIp(ip, email, now)];
      assert Run(u, []) == u;
    } else {
      var rest := Arrive(u, ip, email, now, n - 1);
      steps := [CountIp(ip, email, now)] + rest;
      assert steps[1..] == rest;
      var t := Run(s, steps);
      assert t.attempts[..|s.attempts|] == t.attempts[..|u.attempts|][..|s.attempts|];
      assert t.attempts[|s.attempts|] == t.attempts[..|u.attempts|][|s.attempts|];
    }
  }

  /** The waiting attempts from `skip` on are counted against their email, all in one window. */
  lemma {:induction false} Release(
    s: State, ip: string, email: string, now: int, skip: nat, first: int, window: int, gap: nat)
    returns (steps: seq<Action>)
    requires s.clock <= now && AllWaiting(s.attempts, skip, ip, email, first, now) && now - first <= gap
    requires window == if Alive(s.redis, EmailKey(email), now) then s.redis[EmailKey(email)].since else now
    ensures var t := Run(s, steps);
            && t.clock <= now && |t.attempts| == |s.attempts| && AllCounted(t.attempts, skip, ip, email, window, gap)
            && (forall i :: 0 <= i < skip && i < |s.attempts| ==> t.attempts[i] == s.attempts[i])
            && (forall key :: key != EmailKey(email) ==>
                  (key in t.redis <==> key in s.redis) && (key in s.redis ==> t.redis[key] == s.redis[key]))
            && (if skip < |s.attempts| then EmailKey(email) in t.redis && t.redis[EmailKey(email)].since == window
                else t == s)
    decreases |s.attempts| - skip
  {
    if skip >= |s.attempts| {
      steps := [];
    } else {
      var u := Step(s, CountEmail(skip, now));
      var rest := Release(u, ip, email, now, skip + 1, first, window, gap);
      steps := [CountEmail(skip, now)] + rest;
      assert steps[1..] == rest;
      assert Run(s, steps).attempts[skip] == u.attempts[skip];
    }
  }

  /** Full windows, one after the other, of attempts that all wait. */
  lemma {:induction false} Hold(s: State, ip: string, email: string, first: int, now: int, windows: nat)
    returns (steps: seq<Action>)
    requires s.clock <= now && first <= now && !Alive(s.redis, IpKey(ip, email), now) && windows >= 1
    requires |s.attempts| >= 1 && AllWaiting(s.attempts, 1, ip, email, first, now)
    ensures var t, key := Run(s, steps), IpKey(ip, email);
            && t.clock == now + IP_WINDOW * (windows - 1)
            && |t.attempts| == |s.attempts| + 10 * windows && t.attempts[0] == s.attempts[0]
            && AllWaiting(t.attempts, 1, ip, email, first, t.clock)
            && key in t.redis && t.redis[key].since == t.clock
            && (EmailKey(email) in t.redis <==> EmailKey(email) in s.redis)
    decreases windows
  {
    steps := Arrive(s, ip, email, now, 10);
    var u := Run(s, steps);
    forall i | 1 <= i < |s.attempts| ensures u.attempts[i] == s.attempts[i] {
      assert u.attempts[..|s.attempts|][i] == s.attempts[i];
    }
    assert u.attempts[..|s.attempts|][0] == s.attempts[0];
    if windows > 1 {
      var rest := Hold(u, ip, email, first, now + IP_WINDOW, windows - 1);
      RunConcat(s, steps, rest);
      steps := steps + rest;
    }
  }

  /** Full windows, one after the other, of attempts counted at once on an email window already open. */
  lemma {:induction false} Bursts(
    s: State, ip: string, email: string, now: int, windows: nat, skip: nat, window: int, gap: nat)
    returns (steps: seq<Action>)
    requires s.clock <= now && !Alive(s.redis, IpKey(ip, email), now) && windows >= 1
    requires EmailKey(email) in s.redis && s.redis[EmailKey(email)].since == window
    requires now + IP_WINDOW * (windows - 1) < window + EMAIL_WINDOW
    requires skip <= |s.attempts| && AllCounted(s.attempts, skip, ip, email, window, gap)
    ensures var t := Run(s, steps);
            && |t.attempts| == |s.attempts| + 10 * windows
            && (forall i :: 0 <= i < skip ==> t.attempts[i] == s.attempts[i])
            && AllCounted(t.attempts, skip, ip, email, window, gap)
    decreases windows
  {
    var come := Arrive(s, ip, email, now, 10);
    var u := Run(s, come);
    forall i | 0 <= i < |s.attempts| ensures u.attempts[i] == s.attempts[i] {
      assert u.attempts[..|s.attempts|][i] == s.attempts[i];
    }
    var go := Release(u, ip, email, now, |s.attempts|, now, window, gap);
    var v := Run(u, go);
    RunConcat(s, come, go);
    steps := come + go;
    if windows > 1 {
      assert v.redis[IpKey(ip, email)].since == now;
      var rest := Bursts(v, ip, email, now + IP_WINDOW, windows - 1, skip, window, gap);
      RunConcat(s, steps, rest);
      steps := steps + rest;
    }
  }

  lemma {:induction false} CountOfAllCounted(
    attempts: seq<Attempt>, skip: nat, ip: string, email: string, window: int, gap: nat)
    requires skip <= |attempts| && AllCounted(attempts, skip, ip, email, window, gap)
    requires forall i :: 0 <= i < skip ==> !CountedIn(ip, email, window)(attempts[i])
    ensures Count(attempts, CountedIn(ip, email, window)) == |attempts| - skip
    decreases |attempts|
  {
    if attempts != [] {
      var last := |attempts| - 1;
      CountOfAllCounted(attempts[..last], if skip <= last then skip else last, ip, email, window, gap);
    }
  }

  /** How long the attempts of the widest schedule of `windows` IP windows wait: those four do not hold come before. */
  function GapFor(windows: nat): nat
    requires windows >= 5
  {
    IP_WINDOW * (windows - 5) + 2
  }

  lemma ShareOf(windows: nat)
    requires windows >= 5
    ensures Share(GapFor(windows)) == 10 * windows + 9
  {
    assert EMAIL_WINDOW + GapFor(windows) + IP_WINDOW - 1 == IP_WINDOW * windows + 1;
  }

  /** Before the email's window opens: full IP windows wait, and nine more that came as the one before them closed. */
  lemma HeldBursts(ip: string, email: string, window: int, held: nat) returns (clock: int, steps: seq<Action>)
    requires held >= 1
    ensures var s, key := Run(Start(clock), steps), IpKey(ip, email);
            && s.clock == window - 1 && |s.attempts| == 10 * held + 10 && s.attempts[0].counting.None?
            && s.attempts[0].stage.IpCounted?
            && AllWaiting(s.attempts, 1, ip, email, window - 2 - IP_WINDOW * (held - 1), window)
            && key in s.redis && s.redis[key].since == window - 1 && EmailKey(email) !in s.redis
  {
    var first := window - 1 - IP_WINDOW * (held - 1);
    clock := first - IP_WINDOW;
    var opening := Arrive(Start(clock), ip, email, clock, 1);
    var s := Run(Start(clock), opening);
    var closing := Arrive(s, ip, email, first - 1, 9);
    var t := Run(s, closing);
    assert t.attempts[..1][0] == s.attempts[0];
    var holding := Hold(t, ip, email, first - 1, first, held);
    RunConcat(s, closing, holding);
    RunConcat(Start(clock), opening, closing + holding);
    steps := opening + (closing + holding);
  }

  /**
   The bound is met: the email counts what was held once its hour has begun, and four more windows fill up within it.
   */
  lemma ShareIsReached(ip: string, email: string, window: int, windows: nat) returns (clock: int, steps: seq<Action>)
    requires windows >= 5
    ensures var attempts := Run(Start(clock), steps).attempts;
            && NeverSucceeds(attempts, ip, email) && Prompt(attempts, ip, email, GapFor(windows))
            && Count(attempts, CountedIn(ip, email, window)) == Share(GapFor(windows)) == 10 * windows + 9
  {
    var gap := GapFor(windows);
    var holding;
    clock, holding := HeldBursts(ip, email, window, windows - 4);
    var u := Run(Start(clock), holding);
    var releasing := Release(u, ip, email, window, 1, window - gap, window, gap);
    var v := Run(u, releasing);
    var bursts := Bursts(v, ip, email, window - 1 + IP_WINDOW, 4, 1, window, gap);
    RunConcat(u, releasing, bursts);
    RunConcat(Start(clock), holding, releasing + bursts);
    steps := holding + (releasing + bursts);
    CountOfAllCounted(Run(Start(clock), steps).attempts, 1, ip, email, window, gap);
    ShareOf(windows);
  }

  /** One attempt that opens the IP's window, counted twice at once. */
  lemma OneBefore(s: State, ip: string, email: string, now: int, window: int) returns (steps: seq<Action>)
    requires s.clock <= now && !Alive(s.redis, IpKey(ip, email), now)
    requires window == if Alive(s.redis, EmailKey(email), now) then s.redis[EmailKey(email)].since else now
    ensures var t := Run(s, steps);
            && t.clock <= now && |t.attempts| == |s.attempts| + 1 && t.attempts[..|s.attempts|] == s.attempts
            && AllCounted(t.attempts, |s.attempts|, ip, email, window, 0)
            && t.redis.Keys == s.redis.Keys + {IpKey(ip, email), EmailKey(email)}
            && t.redis[IpKey(ip, email)] == Counter(now, 1) && t.redis[EmailKey(email)].since == window
  {
    var come := Arrive(s, ip, email, now, 1);
    var u := Run(s, come);
    var go := Release(u, ip, email, now, |s.attempts|, now, window, 0);
    RunConcat(s, come, go);
    steps := come + go;
    var t := Run(s, steps);
    assert forall i :: 0 <= i < |s.attempts| ==> t.attempts[i] == u.attempts[..|s.attempts|][i];
  }

  /** Up to the last moment of an email's hour: the IP has opened the hour, and then, just now, a window of its own. */
  lemma LastMoment(ip: string, email: string, window: int) returns (steps: seq<Action>)
    ensures var t, key := Run(Start(window - EMAIL_WINDOW), steps), IpKey(ip, email);
            && t.clock <= window && |t.attempts| == 2
            && AllCounted(t.attempts, 0, ip, email, window - EMAIL_WINDOW, 0)
            && key in t.redis && t.redis[key] == Counter(window - 1, 1)
            && EmailKey(email) in t.redis && t.redis[EmailKey(email)].since == window - EMAIL_WINDOW
  {
    var clock := window - EMAIL_WINDOW;
    var before := OneBefore(Start(clock), ip, email, clock, clock);
    var s := Run(Start(clock), before);
    var opening := OneBefore(s, ip, email, window - 1, clock);
    RunConcat(Start(clock), before, opening);
    steps := before + opening;
    var t := Run(s, opening);
    assert t.attempts[0] == t.attempts[..1][0];
  }

  /** Nine more at the hour, all counted in the next. */
  lemma NineMore(t: State, ip: string, email: string, window: int) returns (steps: seq<Action>)
    requires t.clock <= window && |t.attempts| == 2
    requires IpKey(ip, email) in t.redis && t.redis[IpKey(ip, email)] == Counter(window - 1, 1)
    requires EmailKey(email) in t.redis && t.redis[EmailKey(email)].since == window - EMAIL_WINDOW
    ensures var v, key := Run(t, steps), IpKey(ip, email);
            && v.clock <= window && |v.attempts| == 11
            && v.attempts[0] == t.attempts[0] && v.attempts[1] == t.attempts[1]
            && AllCounted(v.attempts, 2, ip, email, window, 0)
            && key in v.redis && v.redis[key].since == window - 1
            && EmailKey(email) in v.redis && v.redis[EmailKey(email)].since == window
  {
    var come := Arrive(t, ip, email, window, 9);
    var u := Run(t, come);
    assert u.attempts[..2][0] == t.attempts[0] && u.attempts[..2][1] == t.attempts[1];
    var go := Release(u, ip, email, window, 2, window, window, 0);
    RunConcat(t, come, go);
    steps := come + go;
  }

  /**
   Without any gap 49 is met: the email's hour before ends while a window of the IP is under way, whose first attempt it
   has counted; the nine others, and four windows more, fall in the next.
   */
  lemma NoGapGives49(ip: string, email: string, window: int) returns (clock: int, steps: seq<Action>)
    ensures var attempts := Run(Start(clock), steps).attempts;
            && NeverSucceeds(attempts, ip, email) && Prompt(attempts, ip, email, 0)
            && Count(attempts, CountedIn(ip, email, window)) == 49
  {
    clock := window - EMAIL_WINDOW;
    var first := LastMoment(ip, email, window);
    var t := Run(Start(clock), first);
    var nine := NineMore(t, ip, email, window);
    var v := Run(t, nine);
    var bursts := Bursts(v, ip, email, window - 1 + IP_WINDOW, 4, 2, window, 0);
    RunConcat(t, nine, bursts);
    RunConcat(Start(clock), first, nine + bursts);
    steps := first + (nine + bursts);
    CountOfAllCounted(Run(Start(clock), steps).attempts, 2, ip, email, window, 0);
  }

  /** So 49 is not a bound once any time may pass between the two counts: two microseconds give 59. */
  lemma TwoMicrosecondsGive59(ip: string, email: string, window: int) returns (clock: int, steps: seq<Action>)
    ensures var attempts := Run(Start(clock), steps).attempts;
            && NeverSucceeds(attempts, ip, email) && Prompt(attempts, ip, email, 2)
            && Count(attempts, CountedIn(ip, email, window)) == 59
  {
    clock, steps := ShareIsReached(ip, email, window, 5);
  }

  /** And one IP exhausts an email alone once its attempts may wait for two microseconds over 75 minutes. */
  lemma OverAnHourAndAQuarterExhausts(ip: string, email: string, window: int) returns (clock: int, steps: seq<Action>)
    ensures var attempts := Run(Start(clock), steps).attempts;
            && NeverSucceeds(attempts, ip, email) && Prompt(attempts, ip, email, 75 * MINUTE + 2)
            && Count(attempts, CountedIn(ip, email, window)) > MAX_ATTEMPTS_PER_EMAIL
  {
    clock, steps := ShareIsReached(ip, email, window, 10);
  }

  // ---- the service, counting in place ----

  /** A login nothing comes between. */
  function Alone(s: State, ip: string, email: string, at: int, next: int, last: int, matches: bool): State {
    var id := |s.attempts|;
    Step(Step(Step(s, CountIp(ip, email, at)), CountEmail(id, next)), Check(id, last, matches))
  }

  class Service {
    var redis: Redis
    var attempts: seq<Attempt>
    ghost var clock: int

    ghost function Snapshot(): State
      reads this
    {
      State(redis, attempts, clock)
    }

    constructor (ghost clock: int)
      ensures Snapshot() == Start(clock)
    {
      redis, attempts, this.clock := map[], [], clock;
    }

    method CountAttempt(key: Key, now: int) returns (count: nat)
      modifies this`redis
      ensures redis == Counted(old(redis), key, now) && count == redis[key].count
    {
      if !Alive(redis, key, now) {
        redis := redis[key := Counter(now, 0)];
      }
      redis := redis[key := redis[key].(count := redis[key].count + 1)];
      count := redis[key].count;
    }

    method BeginLogin(ip: string, email: string, now: int) returns (refused: bool)
      requires clock <= now
      modifies this
      ensures Snapshot() == Step(old(Snapshot()), CountIp(ip, email, now))
      ensures attempts == old(attempts) + [Attempt(ip, email, now, if refused then IpRefused else IpCounted, None)]
      ensures redis == Counted(old(redis), IpKey(ip, email), now)
      ensures var key := IpKey(ip, email);
              refused <==> key in old(redis) && now < old(redis)[key].since + 15 * MINUTE && old(redis)[key].count >= 10
    {
      var count := CountAttempt(IpKey(ip, email), now);
      refused := count > MAX_ATTEMPTS_PER_IP;
      attempts := attempts + [Attempt(ip, email, now, if refused then IpRefused else IpCounted, None)];
      clock := now;
    }

    method GoOn(id: nat, now: int) returns (refused: bool)
      requires clock <= now && id < |attempts| && attempts[id].stage.IpCounted?
      modifies this
      ensures Snapshot() == Step(old(Snapshot()), CountEmail(id, now))
      ensures |attempts| == old(|attempts|) && attempts[id].stage == if refused then EmailRefused else AtPassword
      ensures var key := EmailKey(old(attempts)[id].email);
              && (refused <==> key in old(redis) && now < old(redis)[key].since + HOUR && old(redis)[key].count >= 100)
              && redis == Counted(old(redis), key, now)
    {
      var a := attempts[id];
      var count := CountAttempt(EmailKey(a.email), now);
      refused := count > MAX_ATTEMPTS_PER_EMAIL;
      var counting := Some(Counting(now, redis[EmailKey(a.email)].since));
      attempts := attempts[id := a.(stage := if refused then EmailRefused else AtPassword, counting := counting)];
      clock := now;
    }

    method CheckPassword(id: nat, now: int, matches: bool)
      requires clock <= now && id < |attempts| && attempts[id].stage.AtPassword?
      modifies this
      ensures Snapshot() == Step(old(Snapshot()), Check(id, now, matches))
      ensures attempts == old(attempts)[id := old(attempts)[id].(stage := if matches then LoggedIn else Failed)]
      ensures matches ==> IpKey(attempts[id].ip, attempts[id].email) !in redis
      ensures forall key :: key in old(redis) && key !in redis ==>
                matches && key == IpKey(attempts[id].ip, attempts[id].email)
    {
      var a := attempts[id];
      attempts := attempts[id := a.(stage := if matches then LoggedIn else Failed)];
      if matches { redis := redis - {IpKey(a.ip, a.email)}; }
      clock := now;
    }

    /** A login from start to end, as it runs when no other comes between its steps. */
    method Login(ip: string, email: string, at: int, next: int, last: int, matches: bool) returns (stage: Stage)
      requires clock <= at <= next <= last
      modifies this
      ensures Snapshot() == Alone(old(Snapshot()), ip, email, at, next, last, matches)
      ensures |attempts| == old(|attempts|) + 1 && stage == attempts[old(|attempts|)].stage
      ensures stage.IpRefused? <==>
              Counted(old(redis), IpKey(ip, email), at)[IpKey(ip, email)].count > MAX_ATTEMPTS_PER_IP
      ensures stage.EmailRefused? <==>
              && !stage.IpRefused?
              && Counted(old(redis), EmailKey(email), next)[EmailKey(email)].count > MAX_ATTEMPTS_PER_EMAIL
      ensures stage.LoggedIn? || stage.Failed? <==> !stage.IpRefused? && !stage.EmailRefused?
      ensures stage.LoggedIn? ==> matches && IpKey(ip, email) !in redis
      ensures stage.Failed? ==> !matches
    {
      var id := |attempts|;
      var refused := BeginLogin(ip, email, at);
      if !refused {
        refused := GoOn(id, next);
        if !refused { CheckPassword(id, last, matches); }
      }
      stage := attempts[id].stage;
    }
  }
}
