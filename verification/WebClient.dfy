/** The browser client: single-flight token refresh and one bounded retry per request, first
    as an object whose methods are the turns of the event loop, then composed with the
    rotating server over every interleaving. */
module WebClient {
  import opened Wrappers

  /** Where a request stands: sent (and whether it may retry), waiting for the shared refresh,
      or woken by it. */
  datatype Stage = Sent(retry: bool) | Waiting | Woken(renewed: bool) | Finished
  datatype Request = Request(stage: Stage, sends: nat)

  datatype Reply = Renewed(next: string) | Refused | Lost

  /** A refresh post on its way, before or after the server answered. */
  datatype Flight = Asked(token: string) | Answered(token: string, reply: Reply)

  datatype Client = Client(requests: map<nat, Request>, refresh: Option<string>, refreshing: bool,
                           flights: seq<Flight>)

  // ---- One turn each ----------------------------------------------------------------

  function Begin(c: Client, r: nat): Client {
    if r in c.requests then c else c.(requests := c.requests[r := Request(Sent(true), 1)])
  }

  function SetStage(c: Client, r: nat, stage: Stage): Client
    requires r in c.requests
  {
    c.(requests := c.requests[r := c.requests[r].(stage := stage)])
  }

  /** A 401 with a retry left calls tryRefresh: join the refresh in flight, give up without a
      token, or post the stored one. */
  function OnReply(c: Client, r: nat, unauthorized: bool): Client {
    if r !in c.requests || !c.requests[r].stage.Sent? then c
    else if !unauthorized || !c.requests[r].stage.retry then SetStage(c, r, Finished)
    else if c.refreshing then SetStage(c, r, Waiting)
    else if c.refresh.None? then SetStage(c, r, Woken(false))
    else SetStage(c, r, Waiting).(refreshing := true, flights := c.flights + [Asked(c.refresh.value)])
  }

  predicate Posts(c: Client, r: nat, unauthorized: bool) {
    r in c.requests && c.requests[r].stage == Sent(true) && unauthorized && !c.refreshing && c.refresh.Some?
  }

  function WakeAll(requests: map<nat, Request>, renewed: bool): map<nat, Request> {
    map r | r in requests ::
      if requests[r].stage == Waiting then requests[r].(stage := Woken(renewed)) else requests[r]
  }

  function OnRefreshReply(c: Client): Client {
    if c.flights == [] || !c.flights[0].Answered? then c
    else
      var reply := c.flights[0].reply;
      Client(WakeAll(c.requests, reply.Renewed?),
             match reply { case Renewed(next) => Some(next) case Refused => None case Lost => c.refresh },
             false, c.flights[1..])
  }

  function Resume(c: Client, r: nat): Client {
    if r !in c.requests || !c.requests[r].stage.Woken? then c
    else if c.requests[r].stage.renewed then
      c.(requests := c.requests[r := Request(Sent(false), c.requests[r].sends + 1)])
    else SetStage(c, r, Finished).(refresh := None)
  }

  class Api {
    var requests: map<nat, Request>
    var refresh: Option<string>
    var refreshing: bool
    var flights: seq<Flight>

    ghost function View(): Client
      reads this
    {
      Client(requests, refresh, refreshing, flights)
    }

    constructor ()
      ensures View() == Client(map[], None, false, [])
    {
      requests, refresh, refreshing, flights := map[], None, false, [];
    }

    method StartRequest(r: nat)
      modifies this
      ensures View() == Begin(old(View()), r)
    {
      if r !in requests { requests := requests[r := Request(Sent(true), 1)]; }
    }

    method HandleReply(r: nat, unauthorized: bool)
      modifies this
      ensures View() == OnReply(old(View()), r, unauthorized)
    {
      if r !in requests || !requests[r].stage.Sent? { return; }
      var stage := Finished;
      if unauthorized && requests[r].stage.retry { stage := TryRefresh(); }
      requests := requests[r := requests[r].(stage := stage)];
    }

    /** tryRefresh up to its first await. */
    method TryRefresh() returns (stage: Stage)
      modifies this`refreshing, this`flights
      ensures stage == if old(refreshing) || refresh.Some? then Waiting else Woken(false)
      ensures refreshing == (old(refreshing) || refresh.Some?)
      ensures flights == if old(refreshing) || refresh.None? then old(flights)
                         else old(flights) + [Asked(refresh.value)]
    {
      if refreshing { return Waiting; }
      if refresh.None? { return Woken(false); }
      refreshing := true;
      flights := flights + [Asked(refresh.value)];
      return Waiting;
    }

    method HandleRefreshReply()
      modifies this
      ensures View() == OnRefreshReply(old(View()))
    {
      if flights == [] || !flights[0].Answered? { return; }
      var reply := flights[0].reply;
      flights := flights[1..];
      match reply {
        case Renewed(next) => refresh := Some(next);
        case Refused => refresh := None;
        case Lost =>
      }
      refreshing := false;
      requests := WakeAll(requests, reply.Renewed?);
    }

    method ResumeRequest(r: nat)
      modifies this
      ensures View() == Resume(old(View()), r)
    {
      if r !in requests || !requests[r].stage.Woken? { return; }
      if requests[r].stage.renewed {
        requests := requests[r := Request(Sent(false), requests[r].sends + 1)];
      } else {
        refresh := None;
        requests := requests[r := requests[r].(stage := Finished)];
      }
    }
  }

  // ---- What each turn does ------------------------------------------------------------

  /** The requests other than r are as they were. */
  predicate OthersSame(c: Client, d: Client, r: nat) {
    d.requests.Keys == c.requests.Keys + {r}
    && forall q :: q in c.requests && q != r ==> d.requests[q] == c.requests[q]
  }

  /** A request is sent once when it starts. */
  lemma StartEffect(c: Client, r: nat)
    requires r !in c.requests
    ensures var d := Begin(c, r);
            && OthersSame(c, d, r) && d.requests[r] == Request(Sent(true), 1)
            && d.refresh == c.refresh && d.refreshing == c.refreshing && d.flights == c.flights
  {
  }

  /** A reply that is not a 401, or a 401 to the second send, ends the request. A 401 to the first
      waits for the refresh in flight; or, without one, posts the stored token and waits for that; or,
      without a token, goes on as after a failed refresh. */
  lemma ReplyEffect(c: Client, r: nat, unauthorized: bool)
    requires r in c.requests && c.requests[r].stage.Sent?
    ensures var d := OnReply(c, r, unauthorized); var retries := unauthorized && c.requests[r].stage == Sent(true);
            && OthersSame(c, d, r) && d.requests[r].sends == c.requests[r].sends && d.refresh == c.refresh
            && d.requests[r].stage == (if !retries then Finished
                                       else if c.refreshing || c.refresh.Some? then Waiting else Woken(false))
            && d.refreshing == (c.refreshing || (retries && c.refresh.Some?))
            && d.flights == (if retries && !c.refreshing && c.refresh.Some? then c.flights + [Asked(c.refresh.value)]
                             else c.flights)
  {
  }

  /** The end of the shared refresh: every waiting request learns whether it was a renewal, the others
      go on as they were, and the tokens are replaced, cleared, or kept when no reply came. */
  lemma RefreshEffect(c: Client)
    requires c.flights != [] && c.flights[0].Answered?
    ensures var d := OnRefreshReply(c); var reply := c.flights[0].reply;
            && d.requests.Keys == c.requests.Keys && !d.refreshing && d.flights == c.flights[1..]
            && (forall q :: q in c.requests ==>
                  d.requests[q] ==
                  if c.requests[q].stage == Waiting then Request(Woken(reply.Renewed?), c.requests[q].sends)
                  else c.requests[q])
            && (reply.Renewed? ==> d.refresh == Some(reply.next))
            && (reply.Refused? ==> d.refresh == None)
            && (reply.Lost? ==> d.refresh == c.refresh)
  {
  }

  /** After a renewal the request is sent again, for the last time; otherwise it ends and the tokens go. */
  lemma WakeEffect(c: Client, r: nat)
    requires r in c.requests && c.requests[r].stage.Woken?
    ensures var d := Resume(c, r); var q := c.requests[r];
            && OthersSame(c, d, r) && d.refreshing == c.refreshing && d.flights == c.flights
            && (if q.stage.renewed then d.requests[r] == Request(Sent(false), q.sends + 1) && d.refresh == c.refresh
                else d.requests[r] == Request(Finished, q.sends) && d.refresh == None)
  {
  }

  // ---- Client and server together ---------------------------------------------------

  datatype Event =
    | NewRequest(r: nat)
    | RequestReply(r: nat, unauthorized: bool)
    | ServerAnswers(live: bool, completes: bool, next: string, delivered: bool)
    | RefreshReply
    | Wake(r: nat)
    | LoggedIn(token: string)
    | LoggedOut

  /** `spent` and `issued` are the server's; `posted` and `superseded` record what the client
      sent, which tokens have a stored successor, and which were consumed by a post whose reply
      never arrived. */
  datatype World = World(client: Client, spent: set<string>, issued: set<string>,
                         posted: seq<string>, superseded: set<string>, lost: set<string>)

  /** The server consumes a token at most once, and only when its session is still live. The user
      check and the issue come after: when they fail the token is spent and the post refused. */
  function Answer(w: World, live: bool, completes: bool, next: string, delivered: bool): World {
    if w.client.flights == [] || !w.client.flights[0].Asked? || next in w.issued then w
    else
      var token := w.client.flights[0].token;
      var consumes := live && token in w.issued && token !in w.spent;
      var renews := consumes && completes;
      var reply := if !delivered then Lost else if renews then Renewed(next) else Refused;
      w.(client := w.client.(flights := [Answered(token, reply)] + w.client.flights[1..]),
         spent := if consumes then w.spent + {token} else w.spent,
         issued := if renews then w.issued + {next} else w.issued,
         lost := if delivered || !consumes then w.lost else w.lost + {token})
  }

  function Apply(w: World, e: Event): World {
    match e
    case NewRequest(r) => w.(client := Begin(w.client, r))
    case RequestReply(r, unauthorized) =>
      w.(client := OnReply(w.client, r, unauthorized),
         posted := if Posts(w.client, r, unauthorized) then w.posted + [w.client.refresh.value] else w.posted)
    case ServerAnswers(live, completes, next, delivered) => Answer(w, live, completes, next, delivered)
    case RefreshReply =>
      var c := w.client;
      var stores := c.flights != [] && c.flights[0].Answered? && c.flights[0].reply.Renewed?;
      w.(client := OnRefreshReply(c),
         superseded := if stores then w.superseded + {c.flights[0].token} else w.superseded)
    case Wake(r) => w.(client := Resume(w.client, r))
    case LoggedIn(token) =>
      if token in w.issued then w
      else w.(client := w.client.(refresh := Some(token)), issued := w.issued + {token})
    case LoggedOut => w.(client := w.client.(refresh := None))
  }

  function After(w: World, es: seq<Event>): World {
    if es == [] then w else Apply(After(w, es[..|es| - 1]), es[|es| - 1])
  }

  const START := World(Client(map[], None, false, []), {}, {}, [], {}, {})

  /** Sends are bounded by the stage a request has reached. */
  predicate Bounded(q: Request) {
    match q.stage
    case Sent(retry) => q.sends == if retry then 1 else 2
    case Waiting => q.sends == 1
    case Woken(_) => q.sends == 1
    case Finished => 1 <= q.sends <= 2
  }

  ghost predicate GoodFlight(w: World, f: Flight) {
    && f.token in w.issued && f.token !in w.superseded
    && (f.Asked? && f.token !in w.lost ==> f.token !in w.spent)
    && (f.Answered? && f.reply.Lost? && f.token in w.spent ==> f.token in w.lost)
    && (f.Answered? && f.reply.Renewed? ==>
          && f.token in w.spent && f.reply.next != f.token && w.client.refresh != Some(f.reply.next)
          && f.reply.next in w.issued && f.reply.next !in w.spent && f.reply.next !in w.superseded)
  }

  /** A stored token is current; if it is spent, the reply that replaces or clears it is on its
      way, or got lost. */
  ghost predicate GoodToken(w: World, token: string) {
    && token in w.issued && token !in w.superseded
    && (token in w.spent && token !in w.lost ==>
          && w.client.flights != [] && w.client.flights[0].Answered? && !w.client.flights[0].reply.Lost?
          && w.client.flights[0].token == token)
  }

  ghost predicate Good(w: World) {
    var c := w.client;
    && (forall r :: r in c.requests ==> Bounded(c.requests[r]))
    && |c.flights| <= 1 && (c.refreshing <==> |c.flights| == 1)
    && (c.flights != [] ==> GoodFlight(w, c.flights[0]))
    && (c.refresh.Some? ==> GoodToken(w, c.refresh.value))
    && w.superseded <= w.spent <= w.issued && w.lost <= w.spent
  }

  lemma ApplyGood(w: World, e: Event)
    requires Good(w)
    ensures Good(Apply(w, e))
  {
  }

  lemma {:induction false} AlwaysGood(es: seq<Event>)
    ensures Good(After(START, es))
  {
    if es != [] {
      AlwaysGood(es[..|es| - 1]);
      ApplyGood(After(START, es[..|es| - 1]), es[|es| - 1]);
    }
  }

  /** At most one refresh is in flight, and no request is ever sent more than twice. */
  lemma SingleFlightBoundedRetry(es: seq<Event>)
    ensures var c := After(START, es).client;
            && |c.flights| <= 1 && (c.refreshing <==> c.flights != [])
            && forall r :: r in c.requests ==> 1 <= c.requests[r].sends <= 2
  {
    AlwaysGood(es);
  }

  /** A token whose successor has been stored is never posted again; and a posted token is one the
      server has already consumed exactly when the reply to the post that consumed it got lost. */
  lemma PostsAreCurrent(es: seq<Event>, r: nat)
    requires Posts(After(START, es).client, r, true)
    ensures var w := After(START, es); var token := w.client.refresh.value;
            && token !in w.superseded && token in w.issued
            && (token in w.spent <==> token in w.lost)
  {
    AlwaysGood(es);
  }

  /** So a post is renewed exactly when no reply of its token got lost and the server has no reason
      of its own against it: expiry, revocation, an inactive user, a failure to issue. */
  lemma RefusalIsTheServers(es: seq<Event>, live: bool, completes: bool, next: string)
    requires var w := After(START, es);
             w.client.flights != [] && w.client.flights[0].Asked? && next !in w.issued
    ensures var w := After(START, es); var token := w.client.flights[0].token;
            Answer(w, live, completes, next, true).client.flights[0]
            == Answered(token, if live && completes && token !in w.lost then Renewed(next) else Refused)
  {
    AlwaysGood(es);
  }

  /** When the reply to a consuming post is lost the client keeps a token that is already spent:
      every request whose 401 arrives next with its retry left posts it again, in vain. */
  lemma LostRenewal(w: World, completes: bool, next: string, later: string, r: nat)
    requires Good(w) && w.client.flights != [] && w.client.flights[0].Asked?
    requires w.client.refresh == Some(w.client.flights[0].token)
    requires w.client.refresh.value !in w.spent && next !in w.issued && later !in w.issued && later != next
    ensures var v := Apply(Answer(w, true, completes, next, false), RefreshReply);
            && v.client.refresh == w.client.refresh && v.client.refresh.value in v.spent
            && (r in w.client.requests && w.client.requests[r].stage == Sent(true) ==>
                  && Posts(v.client, r, true)
                  && Apply(Apply(v, RequestReply(r, true)), ServerAnswers(true, true, later, true)).client.flights[0]
                     == Answered(v.client.refresh.value, Refused))
  {
  }

  lemma OneMore(w: World, es: seq<Event>, e: Event)
    ensures After(w, es + [e]) == Apply(After(w, es), e)
  {
    assert (es + [e])[..|es|] == es;
  }

  /** Two requests meet an expired access token; the reply to the first one's renewal is lost. */
  const LOST_RUN: seq<Event> := [LoggedIn("t"), NewRequest(1), NewRequest(2), RequestReply(1, true)]
                                + [ServerAnswers(true, true, "u", false), RefreshReply]

  lemma TwoRequests(es: seq<Event>)
    requires es == [LoggedIn("t"), NewRequest(1), NewRequest(2), RequestReply(1, true)]
    ensures After(START, es) ==
            World(Client(map[1 := Request(Waiting, 1), 2 := Request(Sent(true), 1)], Some("t"), true, [Asked("t")]),
                  {}, {"t"}, ["t"], {}, {})
  {
    OneMore(START, [], LoggedIn("t"));
    OneMore(START, [] + [LoggedIn("t")], NewRequest(1));
    OneMore(START, [LoggedIn("t")] + [NewRequest(1)], NewRequest(2));
    OneMore(START, [LoggedIn("t"), NewRequest(1)] + [NewRequest(2)], RequestReply(1, true));
    assert [] + [LoggedIn("t")] == [LoggedIn("t")];
    assert [LoggedIn("t")] + [NewRequest(1)] == [LoggedIn("t"), NewRequest(1)];
    assert [LoggedIn("t"), NewRequest(1)] + [NewRequest(2)] + [RequestReply(1, true)] == es;
  }

  /** There the second request posts a token the server has consumed. */
  lemma SpentTokenPosted()
    ensures var w := After(START, LOST_RUN);
            w.client.refresh == Some("t") && "t" in w.spent && "t" in w.lost && Posts(w.client, 2, true)
  {
    var es := [LoggedIn("t"), NewRequest(1), NewRequest(2), RequestReply(1, true)];
    TwoRequests(es);
    assert "u" != "t";
    OneMore(START, es, ServerAnswers(true, true, "u", false));
    OneMore(START, es + [ServerAnswers(true, true, "u", false)], RefreshReply);
    assert LOST_RUN == es + [ServerAnswers(true, true, "u", false)] + [RefreshReply];
  }

  // ---- What a waiting request gets ----------------------------------------------------

  /** Requests wake in any order; `woken` are the turns of others between the reply and r's own. */
  lemma {:induction false} OthersWake(c: Client, r: nat, woken: seq<nat>) returns (d: Client)
    requires r in c.requests && c.requests[r].stage.Woken? && r !in woken
    ensures d == WakeRun(c, woken) && r in d.requests && d.requests[r] == c.requests[r]
    ensures d.refresh == c.refresh || d.refresh == None
    ensures AllTold(c, true) ==> d.refresh == c.refresh && AllTold(d, true)
  {
    if woken == [] {
      d := c;
    } else {
      var init, q := woken[..|woken| - 1], woken[|woken| - 1];
      assert woken == init + [q];
      var before := OthersWake(c, r, init);
      d := Resume(before, q);
    }
  }

  function WakeRun(c: Client, woken: seq<nat>): Client {
    if woken == [] then c else Resume(WakeRun(c, woken[..|woken| - 1]), woken[|woken| - 1])
  }

  /** Every woken request was told the same. */
  predicate AllTold(c: Client, renewed: bool) {
    forall q :: q in c.requests && c.requests[q].stage.Woken? ==> c.requests[q].stage.renewed == renewed
  }

  /** A request that waits when the shared refresh ends is, after its own turn and whoever else has
      woken before, sent a second time exactly when the refresh was a renewal, and ended with the
      tokens cleared otherwise. The successor is still stored when it is sent, unless a request left
      over from an earlier failure woke in between and cleared it. */
  lemma WaiterGets(w: World, r: nat, woken: seq<nat>)
    requires Good(w) && w.client.flights != [] && w.client.flights[0].Answered?
    requires r in w.client.requests && w.client.requests[r].stage == Waiting && r !in woken
    ensures var c, reply := w.client, w.client.flights[0].reply;
            var d := Resume(WakeRun(OnRefreshReply(c), woken), r);
            && r in d.requests
            && (d.requests[r] == Request(Sent(false), 2) <==> reply.Renewed?)
            && (d.requests[r].stage == Finished && d.refresh == None <==> !reply.Renewed?)
            && (reply.Renewed? && (woken == [] || AllTold(c, true)) ==> d.refresh == Some(reply.next))
  {
    var c := OnRefreshReply(w.client);
    assert Bounded(w.client.requests[r]);
    RefreshEffect(w.client);
    var d := OthersWake(c, r, woken);
    WakeEffect(d, r);
  }
}
