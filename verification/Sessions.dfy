/** Refresh-token sessions: the store, token rotation, and every interleaving of logins,
    refreshes in separate steps, logouts and purges. Token hashes are taken to be free of
    collisions, so a token stands for its hash. */
module Sessions {
  import opened Wrappers

  datatype Session = Session(user: nat, revoked: bool, expires: int)
  type Table = map<string, Session>

  const WEEK: int := 7 * 24 * 3600

  predicate Live(ss: Table, token: string, now: int) {
    token in ss && !ss[token].revoked && ss[token].expires > now
  }

  function Created(ss: Table, token: string, user: nat, expires: int): Table {
    ss[token := Session(user, false, expires)]
  }

  function Consumed(ss: Table, token: string, now: int): Table {
    if Live(ss, token, now) then ss[token := ss[token].(revoked := true)] else ss
  }

  function Revoked(ss: Table, user: nat): Table {
    map t | t in ss :: if ss[t].user == user then ss[t].(revoked := true) else ss[t]
  }

  function Purged(ss: Table, now: int): Table { map t | t in ss && ss[t].expires >= now - WEEK :: ss[t] }

  // ---- The store and the refresh handler --------------------------------------------

  class SessionStore {
    var sessions: Table

    constructor ()
      ensures sessions == map[]
    {
      sessions := map[];
    }

    /** Fails when the UNIQUE hash column already holds the token. */
    method CreateSession(user: nat, token: string, now: int, ttl: int) returns (ok: bool)
      modifies this
      ensures ok <==> token !in old(sessions)
      ensures sessions == if ok then Created(old(sessions), token, user, now + ttl) else old(sessions)
      ensures ok ==> forall t :: Live(sessions, token, t) <==> t < now + ttl
      ensures forall t, at :: t != token ==> (Live(sessions, t, at) <==> Live(old(sessions), t, at))
    {
      if token in sessions { return false; }
      sessions := sessions[token := Session(user, false, now + ttl)];
      return true;
    }

    method ConsumeSession(token: string, now: int) returns (user: Option<nat>)
      modifies this
      ensures user == if Live(old(sessions), token, now) then Some(old(sessions)[token].user) else None
      ensures sessions == Consumed(old(sessions), token, now)
      ensures user.Some? ==> forall at :: !Live(sessions, token, at)
      ensures forall t, at :: t != token ==> (Live(sessions, t, at) <==> Live(old(sessions), t, at))
    {
      if token !in sessions { return None; }
      var s := sessions[token];
      if s.revoked || s.expires <= now { return None; }
      sessions := sessions[token := s.(revoked := true)];
      return Some(s.user);
    }

    method RevokeUserSessions(user: nat)
      modifies this
      ensures sessions == Revoked(old(sessions), user)
      ensures sessions.Keys == old(sessions).Keys
      ensures forall t :: t in sessions ==> sessions[t].user == old(sessions)[t].user
                                            && sessions[t].expires == old(sessions)[t].expires
      ensures forall t, at :: Live(sessions, t, at) <==> Live(old(sessions), t, at) && old(sessions)[t].user != user
    {
      sessions := map t | t in sessions ::
        if sessions[t].user == user then sessions[t].(revoked := true) else sessions[t];
    }

    method PurgeExpiredSessions(now: int) returns (count: nat)
      modifies this
      ensures sessions == Purged(old(sessions), now) && count == |old(sessions)| - |sessions|
      ensures forall t :: t in sessions <==> t in old(sessions) && old(sessions)[t].expires >= now - 604800
      ensures forall t :: t in sessions ==> sessions[t] == old(sessions)[t]
    {
      ghost var was := sessions;
      var gone := set t | t in sessions && sessions[t].expires < now - WEEK;
      sessions := sessions - gone;
      assert was.Keys == sessions.Keys + gone;
      count := |gone|;
      assert sessions == Purged(was, now);
    }

    /** handleRefresh without interference: rotation kills the posted token and issues the next;
        `minted` is whether the new tokens could be made. */
    method HandleRefresh(token: string, now: int, active: bool, minted: bool, next: string, ttl: int)
      returns (issued: bool)
      requires ttl > 0 && next !in sessions
      modifies this
      ensures issued <==> token != "" && Live(old(sessions), token, now) && active && minted
      ensures !Live(sessions, token, now) || (token == "" && sessions == old(sessions))
      ensures issued ==> Live(sessions, next, now) && sessions[next].user == old(sessions)[token].user
      ensures forall t :: t != token && t != next ==> (Live(sessions, t, now) <==> Live(old(sessions), t, now))
    {
      if token == "" { return false; }
      var user := ConsumeSession(token, now);
      if user.None? || !active || !minted { return false; }
      issued := CreateSession(user.value, next, now, ttl);
    }
  }

  /** The revocation by itself: exactly the user's rows are dead afterwards, at every instant. */
  lemma RevokedExactly(ss: Table, user: nat, token: string, at: int)
    ensures Revoked(ss, user).Keys == ss.Keys
    ensures Live(Revoked(ss, user), token, at) <==> Live(ss, token, at) && ss[token].user != user
    ensures token in ss && ss[token].user != user ==> Revoked(ss, user)[token] == ss[token]
  {
  }

  // ---- All interleavings ------------------------------------------------------------

  /** A refresh between its steps: the user it consumed for, before and after the user check. */
  datatype Stage = Held(user: nat) | Checked(user: nat)

  datatype Action =
    | Login(user: nat, token: string)
    | Consume(thread: nat, token: string)
    | CheckUser(thread: nat, active: bool)
    | Issue(thread: nat, token: string)
    | Abort(thread: nat)
    | Logout(user: nat)
    | Purge

  datatype Event = At(now: int, action: Action)

  /** `issued` is history: every token ever created and its user. */
  datatype Server = Server(sessions: Table, threads: map<nat, Stage>, issued: map<string, nat>, ttl: int)

  function Give(s: Server, token: string, user: nat, now: int): Server {
    s.(sessions := Created(s.sessions, token, user, now + s.ttl), issued := s.issued[token := user])
  }

  /** One atomic statement of the server. New tokens are fresh; an action whose thread is not
      at that step, or whose token is not fresh, is impossible and changes nothing. */
  function Apply(s: Server, e: Event): Server {
    match e.action
    case Login(user, token) => if token in s.issued then s else Give(s, token, user, e.now)
    case Consume(thread, token) =>
      if thread in s.threads || !Live(s.sessions, token, e.now) then s
      else s.(sessions := Consumed(s.sessions, token, e.now),
              threads := s.threads[thread := Held(s.sessions[token].user)])
    case CheckUser(thread, active) =>
      if thread !in s.threads || !s.threads[thread].Held? then s
      else if active then s.(threads := s.threads[thread := Checked(s.threads[thread].user)])
      else s.(threads := s.threads - {thread})
    case Issue(thread, token) =>
      if thread !in s.threads || !s.threads[thread].Checked? || token in s.issued then s
      else Give(s, token, s.threads[thread].user, e.now).(threads := s.threads - {thread})
    case Abort(thread) => s.(threads := s.threads - {thread})
    case Logout(user) => s.(sessions := Revoked(s.sessions, user))
    case Purge => s.(sessions := Purged(s.sessions, e.now))
  }

  function After(s: Server, es: seq<Event>): Server {
    if es == [] then s else Apply(After(s, es[..|es| - 1]), es[|es| - 1])
  }

  predicate Succeeds(s: Server, e: Event) {
    e.action.Consume? && e.action.thread !in s.threads && Live(s.sessions, e.action.token, e.now)
  }

  ghost predicate Sound(s: Server) {
    forall t :: t in s.sessions ==> t in s.issued && s.issued[t] == s.sessions[t].user
  }

  lemma {:induction false} AfterSound(s: Server, es: seq<Event>)
    requires Sound(s)
    ensures Sound(After(s, es))
  {
    if es != [] { AfterSound(s, es[..|es| - 1]); }
  }

  lemma {:induction false} AfterSplit(s: Server, es: seq<Event>, fs: seq<Event>)
    ensures After(s, es + fs) == After(After(s, es), fs)
  {
    if fs == [] {
      assert es + fs == es;
    } else {
      AfterSplit(s, es, fs[..|fs| - 1]);
      assert (es + fs)[..|es + fs| - 1] == es + fs[..|fs| - 1];
    }
  }

  /** Issued before, and spent, revoked or purged by now. */
  predicate Dead(s: Server, token: string) {
    token in s.issued && (token in s.sessions ==> s.sessions[token].revoked)
  }

  lemma {:induction false} DeadForever(s: Server, es: seq<Event>, token: string)
    requires Dead(s, token)
    ensures Dead(After(s, es), token)
  {
    if es != [] { DeadForever(s, es[..|es| - 1], token); }
  }

  lemma Prefixes(s: Server, es: seq<Event>, i: nat, j: nat)
    requires i <= j <= |es|
    ensures After(s, es[..j]) == After(After(s, es[..i]), es[i..j])
  {
    AfterSplit(s, es[..i], es[i..j]);
    assert es[..i] + es[i..j] == es[..j];
  }

  /** Every token is consumed successfully at most once. */
  lemma ConsumedOnce(s: Server, es: seq<Event>, i: nat, j: nat)
    requires Sound(s) && i < j < |es|
    requires Succeeds(After(s, es[..i]), es[i]) && es[j].action.Consume?
    requires es[j].action.token == es[i].action.token
    ensures !Succeeds(After(s, es[..j]), es[j])
  {
    AfterSound(s, es[..i]);
    assert es[..i + 1][..i] == es[..i];
    Prefixes(s, es, i + 1, j);
    DeadForever(After(s, es[..i + 1]), es[i + 1..j], es[i].action.token);
  }

  /** No token created before its user's sessions were revoked is consumed afterwards. */
  lemma NothingSurvivesRevocation(s: Server, es: seq<Event>, i: nat, j: nat)
    requires Sound(s) && i < j < |es| && es[i].action.Logout?
    requires Succeeds(After(s, es[..j]), es[j])
    requires es[j].action.token in After(s, es[..j]).issued
    requires After(s, es[..j]).issued[es[j].action.token] == es[i].action.user
    ensures es[j].action.token !in After(s, es[..i]).issued
  {
    var before, token := After(s, es[..i]), es[j].action.token;
    AfterSound(s, es[..i]);
    assert es[..i + 1][..i] == es[..i];
    Prefixes(s, es, i + 1, j);
    if token in before.issued {
      IssuedKept(Apply(before, es[i]), es[i + 1..j], token);
      DeadForever(Apply(before, es[i]), es[i + 1..j], token);
    }
  }

  lemma {:induction false} IssuedKept(s: Server, es: seq<Event>, token: string)
    requires token in s.issued
    ensures token in After(s, es).issued && After(s, es).issued[token] == s.issued[token]
  {
    if es != [] { IssuedKept(s, es[..|es| - 1], token); }
  }

  // ---- Where tokens come from ---------------------------------------------------------

  predicate Issues(s: Server, e: Event) {
    e.action.Issue? && e.action.thread in s.threads && s.threads[e.action.thread].Checked?
    && e.action.token !in s.issued
  }

  /** The thread consumed a token of the user at event i. */
  ghost predicate ConsumedFor(s: Server, es: seq<Event>, i: nat, thread: nat, user: nat) {
    && i < |es| && Succeeds(After(s, es[..i]), es[i]) && es[i].action.thread == thread
    && After(s, es[..i]).sessions[es[i].action.token].user == user
  }

  /** And its user was found active at event k. */
  predicate CheckedAt(es: seq<Event>, k: nat, thread: nat) {
    k < |es| && es[k].action == CheckUser(thread, true)
  }

  ghost predicate Traced(s: Server, es: seq<Event>, thread: nat, stage: Stage) {
    exists i: nat :: ConsumedFor(s, es, i, thread, stage.user)
                     && (stage.Checked? ==> exists k: nat :: i < k && CheckedAt(es, k, thread))
  }

  lemma TracedLonger(s: Server, es: seq<Event>, e: Event, thread: nat, stage: Stage)
    requires Traced(s, es, thread, stage)
    ensures Traced(s, es + [e], thread, stage)
  {
    var i: nat :| ConsumedFor(s, es, i, thread, stage.user)
                  && (stage.Checked? ==> exists k: nat :: i < k && CheckedAt(es, k, thread));
    assert (es + [e])[..i] == es[..i];
    assert ConsumedFor(s, es + [e], i, thread, stage.user);
    if stage.Checked? {
      var k: nat :| i < k && CheckedAt(es, k, thread);
      assert CheckedAt(es + [e], k, thread);
    }
  }

  lemma NewlyHeld(s: Server, es: seq<Event>, e: Event)
    requires Succeeds(After(s, es), e)
    ensures var thread := e.action.thread;
            thread in Apply(After(s, es), e).threads
            && Traced(s, es + [e], thread, Apply(After(s, es), e).threads[thread])
  {
    var n, thread := |es|, e.action.thread;
    var user := After(s, es).sessions[e.action.token].user;
    assert (es + [e])[..n] == es && (es + [e])[n] == e;
    assert ConsumedFor(s, es + [e], n, thread, user);
    assert Apply(After(s, es), e).threads[thread] == Held(user);
  }

  lemma NewlyChecked(s: Server, es: seq<Event>, e: Event, thread: nat, user: nat)
    requires e.action == CheckUser(thread, true) && Traced(s, es, thread, Held(user))
    ensures Traced(s, es + [e], thread, Checked(user))
  {
    var n := |es|;
    var i: nat :| ConsumedFor(s, es, i, thread, user);
    assert (es + [e])[..i] == es[..i] && (es + [e])[n] == e;
    assert ConsumedFor(s, es + [e], i, thread, user) && CheckedAt(es + [e], n, thread);
  }

  lemma TracedNow(s: Server, es: seq<Event>, e: Event, thread: nat)
    requires thread in Apply(After(s, es), e).threads
    requires thread in After(s, es).threads ==> Traced(s, es, thread, After(s, es).threads[thread])
    ensures Traced(s, es + [e], thread, Apply(After(s, es), e).threads[thread])
  {
    var before := After(s, es);
    var stage := Apply(before, e).threads[thread];
    if thread in before.threads && before.threads[thread] == stage {
      TracedLonger(s, es, e, thread, stage);
    } else if thread in before.threads {
      NewlyChecked(s, es, e, thread, stage.user);
    } else {
      NewlyHeld(s, es, e);
    }
  }

  lemma {:induction false} AlwaysTraced(s: Server, es: seq<Event>, thread: nat)
    requires s.threads == map[] && thread in After(s, es).threads
    ensures Traced(s, es, thread, After(s, es).threads[thread])
  {
    if es != [] {
      var init, e := es[..|es| - 1], es[|es| - 1];
      assert es == init + [e];
      if thread in After(s, init).threads { AlwaysTraced(s, init, thread); }
      TracedNow(s, init, e, thread);
    }
  }

  /** The thread consumed for the user and then found the user active, before event j. */
  ghost predicate Entitled(s: Server, es: seq<Event>, j: nat, thread: nat, user: nat) {
    exists i: nat, k: nat :: i < k < j && ConsumedFor(s, es, i, thread, user) && CheckedAt(es, k, thread)
  }

  lemma EntitledBy(s: Server, es: seq<Event>, j: nat, thread: nat, user: nat)
    requires j <= |es| && Traced(s, es[..j], thread, Checked(user))
    ensures Entitled(s, es, j, thread, user)
  {
    var i: nat :| ConsumedFor(s, es[..j], i, thread, user) && exists k: nat :: i < k && CheckedAt(es[..j], k, thread);
    var k: nat :| i < k && CheckedAt(es[..j], k, thread);
    assert es[..j][..i] == es[..i];
    assert ConsumedFor(s, es, i, thread, user) && CheckedAt(es, k, thread);
  }

  lemma IssuedNow(before: Server, e: Event, at: int)
    requires Issues(before, e)
    ensures var token := e.action.token; var after := Apply(before, e);
            && token in after.sessions && after.sessions[token].user == before.threads[e.action.thread].user
            && (Live(after.sessions, token, at) <==> at < e.now + before.ttl)
            && e.action.thread !in after.threads
  {
  }

  /** A refresh issues a token only after it consumed a live one of the same user and then found that
      user active; the new token lives exactly for the configured time, and the refresh is over. */
  lemma IssuedForConsumed(s: Server, es: seq<Event>, j: nat, at: int)
    requires s.threads == map[] && j < |es| && Issues(After(s, es[..j]), es[j])
    ensures var token := es[j].action.token; var after := After(s, es[..j + 1]);
            && token in after.sessions && (Live(after.sessions, token, at) <==> at < es[j].now + After(s, es[..j]).ttl)
            && es[j].action.thread !in after.threads
            && Entitled(s, es, j, es[j].action.thread, after.sessions[token].user)
  {
    var before, thread := After(s, es[..j]), es[j].action.thread;
    AlwaysTraced(s, es[..j], thread);
    assert es[..j + 1][..j] == es[..j];
    EntitledBy(s, es, j, thread, before.threads[thread].user);
    IssuedNow(before, es[j], at);
  }

  // ---- Users do not affect each other ------------------------------------------------

  /** Whose the tokens and the requests are: a token is made for one user, and a request posts the
      tokens of one user. */
  datatype Side = Side(user: nat, threads: set<nat>, tokens: set<string>)

  predicate OnSide(x: Side, e: Event) {
    match e.action
    case Login(user, _) => user == x.user
    case Consume(thread, _) => thread in x.threads
    case CheckUser(thread, _) => thread in x.threads
    case Issue(thread, _) => thread in x.threads
    case Abort(thread) => thread in x.threads
    case Logout(user) => user == x.user
    case Purge => true
  }

  predicate Sided(x: Side, e: Event) {
    match e.action
    case Login(user, token) => user == x.user <==> token in x.tokens
    case Consume(thread, token) => thread in x.threads <==> token in x.tokens
    case Issue(thread, token) => thread in x.threads <==> token in x.tokens
    case _ => true
  }

  ghost predicate Split(x: Side, s: Server) {
    && (forall t :: t in s.sessions ==> (s.sessions[t].user == x.user <==> t in x.tokens))
    && (forall n :: n in s.threads ==> (s.threads[n].user == x.user <==> n in x.threads))
  }

  /** The two servers agree on what is the user's. */
  ghost predicate SameSide(x: Side, a: Server, b: Server) {
    && a.ttl == b.ttl
    && (forall t :: t in x.tokens ==> (t in a.sessions <==> t in b.sessions) && (t in a.issued <==> t in b.issued))
    && (forall t :: t in x.tokens && t in a.sessions ==> a.sessions[t] == b.sessions[t])
    && (forall n :: n in x.threads ==> (n in a.threads <==> n in b.threads))
    && (forall n :: n in x.threads && n in a.threads ==> a.threads[n] == b.threads[n])
  }

  lemma SplitStep(x: Side, s: Server, e: Event)
    requires Split(x, s) && Sided(x, e)
    ensures Split(x, Apply(s, e))
  {
  }

  lemma OtherSideStep(x: Side, a: Server, b: Server, e: Event)
    requires Split(x, a) && SameSide(x, a, b) && Sided(x, e) && !OnSide(x, e)
    ensures SameSide(x, Apply(a, e), b)
  {
  }

  lemma OwnConsume(x: Side, a: Server, b: Server, e: Event)
    requires SameSide(x, a, b) && Sided(x, e) && OnSide(x, e) && e.action.Consume?
    ensures SameSide(x, Apply(a, e), Apply(b, e)) && Succeeds(a, e) == Succeeds(b, e)
  {
    var token, thread := e.action.token, e.action.thread;
    assert Live(a.sessions, token, e.now) <==> Live(b.sessions, token, e.now);
    assert thread in a.threads <==> thread in b.threads;
  }

  lemma OwnGive(x: Side, a: Server, b: Server, token: string, user: nat, now: int)
    requires SameSide(x, a, b)
    ensures SameSide(x, Give(a, token, user, now), Give(b, token, user, now))
  {
  }

  lemma OwnLogout(x: Side, a: Server, b: Server)
    requires SameSide(x, a, b)
    ensures SameSide(x, a.(sessions := Revoked(a.sessions, x.user)), b.(sessions := Revoked(b.sessions, x.user)))
  {
  }

  lemma OwnPurge(x: Side, a: Server, b: Server, now: int)
    requires SameSide(x, a, b)
    ensures SameSide(x, a.(sessions := Purged(a.sessions, now)), b.(sessions := Purged(b.sessions, now)))
  {
  }

  lemma OwnSideStep(x: Side, a: Server, b: Server, e: Event)
    requires SameSide(x, a, b) && Sided(x, e) && OnSide(x, e)
    ensures SameSide(x, Apply(a, e), Apply(b, e))
    ensures e.action.Consume? ==> Succeeds(a, e) == Succeeds(b, e)
  {
    match e.action
    case Login(user, token) => OwnGive(x, a, b, token, user, e.now);
    case Consume(_, _) => OwnConsume(x, a, b, e);
    case Issue(thread, token) =>
      assert thread in a.threads <==> thread in b.threads;
      if thread in a.threads { OwnGive(x, a, b, token, a.threads[thread].user, e.now); }
    case Logout(_) => OwnLogout(x, a, b);
    case Purge => OwnPurge(x, a, b, e.now);
    case _ =>
  }

  function Own(x: Side, es: seq<Event>): seq<Event> {
    if es == [] then []
    else Own(x, es[..|es| - 1]) + if OnSide(x, es[|es| - 1]) then [es[|es| - 1]] else []
  }

  /** The results of the user's own refreshes, in order. */
  function OwnResults(x: Side, s: Server, es: seq<Event>): seq<bool> {
    if es == [] then []
    else
      var e := es[|es| - 1];
      OwnResults(x, s, es[..|es| - 1])
      + if e.action.Consume? && OnSide(x, e) then [Succeeds(After(s, es[..|es| - 1]), e)] else []
  }

  lemma {:induction false} OwnRun(x: Side, s: Server, es: seq<Event>)
    requires Split(x, s) && forall e :: e in es ==> Sided(x, e)
    ensures Split(x, After(s, es)) && Split(x, After(s, Own(x, es)))
    ensures SameSide(x, After(s, es), After(s, Own(x, es)))
    ensures OwnResults(x, s, es) == OwnResults(x, s, Own(x, es))
  {
    if es != [] {
      var init, e := es[..|es| - 1], es[|es| - 1];
      assert es == init + [e];
      OwnRun(x, s, init);
      var a, b := After(s, init), After(s, Own(x, init));
      SplitStep(x, a, e);
      var own := Own(x, init);
      if OnSide(x, e) {
        SplitStep(x, b, e);
        OwnSideStep(x, a, b, e);
        assert (own + [e])[..|own|] == own;
      } else {
        OtherSideStep(x, a, b, e);
        assert own + [] == own && OwnResults(x, s, init) + [] == OwnResults(x, s, init);
      }
    }
  }

  /** What other users do, their logouts in particular, changes the outcome of none of a user's
      refreshes: runs that differ only in it give the same results. */
  lemma UsersAreIndependent(x: Side, s: Server, es: seq<Event>, fs: seq<Event>)
    requires Split(x, s) && (forall e :: e in es ==> Sided(x, e)) && forall e :: e in fs ==> Sided(x, e)
    requires Own(x, es) == Own(x, fs)
    ensures OwnResults(x, s, es) == OwnResults(x, s, fs)
  {
    OwnRun(x, s, es);
    OwnRun(x, s, fs);
  }

  // ---- A logout while a refresh is between its steps --------------------------------

  predicate Working(s: Server, user: nat) {
    exists t :: t in s.threads && s.threads[t].user == user
  }

  predicate Gone(s: Server, user: nat) {
    !Working(s, user) && forall t :: t in s.issued && s.issued[t] == user ==> Dead(s, t)
  }

  lemma GoneStep(s: Server, e: Event, user: nat)
    requires Sound(s) && Gone(s, user) && !(e.action.Login? && e.action.user == user)
    ensures Gone(Apply(s, e), user)
  {
    var t := Apply(s, e);
    forall k | k in t.threads ensures t.threads[k].user != user {
      if k in s.threads { assert s.threads[k].user != user; }
    }
  }

  /** A logout that finds no refresh of the user in progress ends all the user's sessions for
      good: until the next login none of the user's tokens is ever consumed. */
  lemma {:induction false} LogoutIsFinal(s: Server, es: seq<Event>, user: nat, token: string, now: int)
    requires Sound(s) && Gone(s, user)
    requires forall e :: e in es ==> !(e.action.Login? && e.action.user == user)
    requires Live(After(s, es).sessions, token, now)
    ensures After(s, es).sessions[token].user != user
  {
    GoneAfter(s, es, user);
    AfterSound(s, es);
  }

  lemma {:induction false} GoneAfter(s: Server, es: seq<Event>, user: nat)
    requires Sound(s) && Gone(s, user)
    requires forall e :: e in es ==> !(e.action.Login? && e.action.user == user)
    ensures Gone(After(s, es), user)
  {
    if es != [] {
      var init := es[..|es| - 1];
      assert forall e :: e in init ==> e in es;
      GoneAfter(s, init, user);
      AfterSound(s, init);
      assert es[|es| - 1] in es;
      GoneStep(After(s, init), es[|es| - 1], user);
    }
  }

  lemma LogoutWithoutRefresh(s: Server, now: int, user: nat)
    requires Sound(s)
    ensures Gone(Apply(s, At(now, Logout(user))), user) <==> !Working(s, user)
  {
  }

  /** Any refresh in progress can still finish after the logout and leave a live session. */
  lemma LogoutRace(s: Server, now: int, user: nat, thread: nat, next: string)
    requires Sound(s) && thread in s.threads && s.threads[thread].user == user && next !in s.issued && s.ttl > 0
    ensures var es := [At(now, Logout(user)), At(now, CheckUser(thread, true)), At(now, Issue(thread, next))];
            Live(After(s, es).sessions, next, now) && After(s, es).sessions[next].user == user
  {
    var a, b, c := At(now, Logout(user)), At(now, CheckUser(thread, true)), At(now, Issue(thread, next));
    assert [a, b, c][..2] == [a, b] && [a, b][..1] == [a] && [a][..0] == [];
    assert After(s, [a]) == Apply(s, a);
    assert After(s, [a, b]) == Apply(Apply(s, a), b);
    assert After(s, [a, b, c]) == Apply(Apply(Apply(s, a), b), c);
  }

  predicate NoLogin(es: seq<Event>, user: nat) {
    forall e :: e in es ==> !(e.action.Login? && e.action.user == user)
  }

  /** After `es` the user has a token that is live at some instant. */
  ghost predicate LiveAfter(s: Server, es: seq<Event>, user: nat) {
    exists token, now :: Live(After(s, es).sessions, token, now) && After(s, es).sessions[token].user == user
  }

  /** One character longer than every token issued. */
  lemma {:induction false} Longer(names: set<string>) returns (name: string)
    ensures forall t :: t in names ==> |t| < |name|
    decreases names
  {
    if names == {} {
      name := "";
    } else {
      var t :| t in names;
      var shorter := Longer(names - {t});
      name := shorter + t + "x";
    }
  }

  /** A logout ends the user's sessions for good, whatever else happens short of a login, if and
      only if it finds no refresh of the user between its steps. */
  lemma LogoutExactly(s: Server, now: int, user: nat)
    requires Sound(s) && s.ttl > 0
    ensures (forall es :: NoLogin(es, user) ==> !LiveAfter(Apply(s, At(now, Logout(user))), es, user))
            <==> !Working(s, user)
  {
    var out := Apply(s, At(now, Logout(user)));
    if Working(s, user) {
      var thread :| thread in s.threads && s.threads[thread].user == user;
      var next := Longer(s.issued.Keys);
      var steps := [At(now, CheckUser(thread, true)), At(now, Issue(thread, next))];
      LogoutRace(s, now, user, thread, next);
      AfterSplit(s, [At(now, Logout(user))], steps);
      OneEvent(s, At(now, Logout(user)));
      assert [At(now, Logout(user))] + steps
             == [At(now, Logout(user)), At(now, CheckUser(thread, true)), At(now, Issue(thread, next))];
      assert Live(After(out, steps).sessions, next, now);
      assert NoLogin(steps, user) && LiveAfter(out, steps, user);
    } else {
      LogoutWithoutRefresh(s, now, user);
      forall es | NoLogin(es, user) ensures !LiveAfter(out, es, user) {
        if LiveAfter(out, es, user) {
          var token, later :|
            Live(After(out, es).sessions, token, later) && After(out, es).sessions[token].user == user;
          LogoutIsFinal(out, es, user, token, later);
        }
      }
    }
  }

  lemma OneEvent(s: Server, e: Event)
    ensures After(s, [e]) == Apply(s, e)
  {
    assert [e][..0] == [];
  }

  // ---- Purging is invisible ---------------------------------------------------------

  predicate Timed(es: seq<Event>) { forall i, j :: 0 <= i < j < |es| ==> es[i].now <= es[j].now }

  function WithoutPurges(es: seq<Event>): seq<Event> {
    if es == [] then []
    else
      var e := es[|es| - 1];
      WithoutPurges(es[..|es| - 1]) + if e.action.Purge? then [] else [e]
  }

  /** The results of all consume attempts, in order. */
  function Results(s: Server, es: seq<Event>): seq<bool> {
    if es == [] then []
    else
      var e := es[|es| - 1];
      Results(s, es[..|es| - 1])
      + if e.action.Consume? then [Succeeds(After(s, es[..|es| - 1]), e)] else []
  }

  /** The purged table is the other one without some rows that have expired. */
  ghost predicate Similar(a: Server, b: Server, now: int) {
    && a.threads == b.threads && a.issued == b.issued && a.ttl == b.ttl
    && (forall t :: t in a.sessions ==> t in b.sessions && a.sessions[t] == b.sessions[t])
    && (forall t :: t in b.sessions && t !in a.sessions ==> b.sessions[t].expires <= now)
  }

  lemma SimilarPurge(a: Server, b: Server, now: int, later: int)
    requires Similar(a, b, now) && now <= later
    ensures Similar(a.(sessions := Purged(a.sessions, later)), b, later)
  {
  }

  lemma SimilarConsume(a: Server, b: Server, now: int, e: Event)
    requires Similar(a, b, now) && now <= e.now && e.action.Consume?
    ensures Succeeds(a, e) == Succeeds(b, e)
    ensures Similar(Apply(a, e), Apply(b, e), e.now)
  {
    var token := e.action.token;
    assert Live(a.sessions, token, e.now) <==> Live(b.sessions, token, e.now);
  }

  lemma SimilarGive(a: Server, b: Server, now: int, token: string, user: nat, later: int)
    requires Similar(a, b, now) && now <= later
    ensures Similar(Give(a, token, user, later), Give(b, token, user, later), later)
  {
  }

  lemma SimilarStep(a: Server, b: Server, now: int, e: Event)
    requires Similar(a, b, now) && now <= e.now && Sound(b)
    ensures Succeeds(a, e) == Succeeds(b, e)
    ensures Similar(Apply(a, e), if e.action.Purge? then b else Apply(b, e), e.now)
  {
    match e.action
    case Purge => SimilarPurge(a, b, now, e.now);
    case Consume(_, _) => SimilarConsume(a, b, now, e);
    case Login(user, token) => SimilarGive(a, b, now, token, user, e.now);
    case Issue(thread, token) =>
      if thread in a.threads { SimilarGive(a, b, now, token, a.threads[thread].user, e.now); }
    case _ =>
  }

  lemma {:induction false} PurgeRuns(s: Server, es: seq<Event>)
    requires Sound(s) && Timed(es)
    ensures Results(s, es) == Results(s, WithoutPurges(es))
    ensures es == [] ==> After(s, es) == After(s, WithoutPurges(es))
    ensures es != [] ==> Similar(After(s, es), After(s, WithoutPurges(es)), es[|es| - 1].now)
  {
    if es != [] {
      var init, e := es[..|es| - 1], es[|es| - 1];
      PurgeRuns(s, init);
      var kept := WithoutPurges(init);
      AfterSound(s, kept);
      var now := if init == [] then e.now else init[|init| - 1].now;
      SimilarStep(After(s, init), After(s, kept), now, e);
      assert (kept + [e])[..|kept|] == kept;
      assert kept + [] == kept && Results(s, init) + [] == Results(s, init);
    }
  }

  /** Deleting long-expired rows never changes the outcome of a refresh. */
  lemma PurgeIsInvisible(s: Server, es: seq<Event>)
    requires Sound(s) && Timed(es)
    ensures Results(s, es) == Results(s, WithoutPurges(es))
  {
    PurgeRuns(s, es);
  }
}
