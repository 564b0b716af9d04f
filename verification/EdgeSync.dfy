/** SyncCaddy: from the routing table to the published edge configuration, and the
    on-demand TLS check that reads the same table. */
module EdgeSync {
  import opened Strings
  import opened Wrappers
  import opened CaddyConfig

  datatype SiteStatus = Provisioning | Running | Stopped | Failed | Deleting

  /** One row of the routing table. */
  datatype Row = Row(fqdn: string, upstream: string, redirectTo: string, forceHTTPS: bool,
                     siteId: nat, status: SiteStatus)

  // ---- Grouping: what it computes ---------------------------------------------------

  /** Site ids by first appearance. */
  function SiteOrder(rows: seq<Row>): seq<nat> {
    if rows == [] then []
    else
      var order := SiteOrder(rows[..|rows| - 1]);
      var id := rows[|rows| - 1].siteId;
      if id in order then order else order + [id]
  }

  /** The route of one site: settings of its first row, hosts of all rows that do not redirect. */
  function SiteEntry(rows: seq<Row>, id: nat): Option<SiteRoute> {
    if rows == [] then None
    else
      var prev := SiteEntry(rows[..|rows| - 1], id);
      var r := rows[|rows| - 1];
      if r.siteId != id then prev
      else
        var e := if prev.Some? then prev.value
                 else SiteRoute([], r.upstream, "", r.forceHTTPS, r.status != Running);
        Some(if r.redirectTo != "" then e else e.(hosts := e.hosts + [r.fqdn]))
  }

  function SiteRoutes(rows: seq<Row>, order: seq<nat>): seq<SiteRoute> {
    if order == [] then []
    else
      var e := SiteEntry(rows, order[|order| - 1]);
      SiteRoutes(rows, order[..|order| - 1]) + if e.Some? && e.value.hosts != [] then [e.value] else []
  }

  function RedirectRoute(r: Row): SiteRoute {
    SiteRoute([r.fqdn], "", r.redirectTo, r.forceHTTPS, false)
  }

  function RedirectRoutes(rows: seq<Row>): seq<SiteRoute> {
    if rows == [] then []
    else
      var r := rows[|rows| - 1];
      RedirectRoutes(rows[..|rows| - 1]) + if r.redirectTo != "" then [RedirectRoute(r)] else []
  }

  function Group(rows: seq<Row>): seq<SiteRoute> {
    SiteRoutes(rows, SiteOrder(rows)) + RedirectRoutes(rows)
  }

  lemma {:induction false} SiteOrderMembers(rows: seq<Row>, id: nat)
    ensures id in SiteOrder(rows) <==> SiteEntry(rows, id).Some?
    ensures id in SiteOrder(rows) <==> exists r :: r in rows && r.siteId == id
  {
    if rows != [] {
      SiteOrderMembers(rows[..|rows| - 1], id);
      assert rows == rows[..|rows| - 1] + [rows[|rows| - 1]];
    }
  }

  lemma {:induction false} SiteOrderDistinct(rows: seq<Row>)
    ensures forall i, j :: 0 <= i < j < |SiteOrder(rows)| ==> SiteOrder(rows)[i] != SiteOrder(rows)[j]
  {
    if rows != [] { SiteOrderDistinct(rows[..|rows| - 1]); }
  }

  // ---- Grouping: the code -----------------------------------------------------------

  lemma OneRowMore(rows: seq<Row>, n: nat)
    requires n < |rows|
    ensures rows[..n + 1][..n] == rows[..n] && rows[..n + 1][n] == rows[n]
  {
  }

  method CollectSites(rows: seq<Row>) returns (bySite: map<nat, SiteRoute>, order: seq<nat>)
    ensures order == SiteOrder(rows)
    ensures forall id :: id in bySite <==> id in order
    ensures forall id :: id in bySite ==> SiteEntry(rows, id) == Some(bySite[id])
  {
    bySite, order := map[], [];
    for n := 0 to |rows|
      invariant order == SiteOrder(rows[..n])
      invariant forall id :: id in bySite <==> id in order
      invariant forall id :: id in bySite ==> SiteEntry(rows[..n], id) == Some(bySite[id])
    {
      var r := rows[n];
      OneRowMore(rows, n);
      SiteOrderMembers(rows[..n], r.siteId);
      if r.siteId !in bySite {
        bySite := bySite[r.siteId := SiteRoute([], r.upstream, "", r.forceHTTPS, r.status != Running)];
        order := order + [r.siteId];
      }
      if r.redirectTo != "" { continue; }
      var sr := bySite[r.siteId];
      bySite := bySite[r.siteId := sr.(hosts := sr.hosts + [r.fqdn])];
    }
    assert rows[..|rows|] == rows;
  }

  method ListSites(rows: seq<Row>, bySite: map<nat, SiteRoute>, order: seq<nat>) returns (routes: seq<SiteRoute>)
    requires forall id :: id in order ==> id in bySite && SiteEntry(rows, id) == Some(bySite[id])
    ensures routes == SiteRoutes(rows, order)
  {
    routes := [];
    for n := 0 to |order|
      invariant routes == SiteRoutes(rows, order[..n])
    {
      assert order[..n + 1][..n] == order[..n];
      assert order[n] in order;
      if |bySite[order[n]].hosts| > 0 { routes := routes + [bySite[order[n]]]; }
    }
    assert order[..|order|] == order;
  }

  method AddRedirects(rows: seq<Row>, sites: seq<SiteRoute>) returns (routes: seq<SiteRoute>)
    ensures routes == sites + RedirectRoutes(rows)
  {
    routes := sites;
    for n := 0 to |rows|
      invariant routes == sites + RedirectRoutes(rows[..n])
    {
      OneRowMore(rows, n);
      if rows[n].redirectTo != "" { routes := routes + [RedirectRoute(rows[n])]; }
    }
    assert rows[..|rows|] == rows;
  }

  method GroupRows(rows: seq<Row>) returns (routes: seq<SiteRoute>)
    ensures routes == Group(rows)
  {
    var bySite, order := CollectSites(rows);
    routes := ListSites(rows, bySite, order);
    routes := AddRedirects(rows, routes);
  }

  // ---- What the routing table means -------------------------------------------------

  ghost predicate UniqueNames(rows: seq<Row>) {
    forall i, j :: 0 <= i < j < |rows| ==> rows[i].fqdn != rows[j].fqdn
  }

  /** Rows come from a join, so rows of one site carry that site's columns. */
  ghost predicate Consistent(rows: seq<Row>) {
    forall r, s :: r in rows && s in rows && r.siteId == s.siteId
                   ==> r.upstream == s.upstream && r.status == s.status
  }

  ghost predicate CommaFreeNames(rows: seq<Row>) { forall r :: r in rows ==> ',' !in r.fqdn }

  ghost predicate WellFormed(rows: seq<Row>) {
    UniqueNames(rows) && Consistent(rows) && CommaFreeNames(rows)
  }

  /** What the owner of the row asked for. */
  function RowAnswer(r: Row, opt: BuildOptions): Handler {
    if r.redirectTo != "" then Redirect(RedirectLocation(r.redirectTo))
    else if r.status != Running || r.upstream == "" then Static503(opt.maintenanceMessage)
    else Proxy(r.upstream, false)
  }

  ghost function Intended(rows: seq<Row>, opt: BuildOptions, host: string): seq<Handler> {
    if opt.panelHost != "" && opt.panelUpstream != "" && HostMatches(opt.panelHost, host)
    then [Proxy(opt.panelUpstream, true)]
    else if opt.webmailHost != "" && opt.webmailUpstream != "" && HostMatches(opt.webmailHost, host)
    then [Proxy(opt.webmailUpstream, true)]
    else if exists r :: r in rows && r.fqdn == host then
      var r :| r in rows && r.fqdn == host;
      Guards(opt) + [RowAnswer(r, Defaulted(opt))]
    else []
  }

  // ---- Members of the grouped routes ------------------------------------------------

  ghost predicate Contributes(r: Row, id: nat, h: string) {
    r.siteId == id && r.redirectTo == "" && r.fqdn == h
  }

  lemma {:induction false} EntryHosts(rows: seq<Row>, id: nat, h: string)
    requires SiteEntry(rows, id).Some?
    ensures SiteEntry(rows, id).value.redirectTo == ""
    ensures h in SiteEntry(rows, id).value.hosts <==> exists r :: r in rows && Contributes(r, id, h)
  {
    var init, last := rows[..|rows| - 1], rows[|rows| - 1];
    assert rows == init + [last];
    if SiteEntry(init, id).Some? {
      EntryHosts(init, id, h);
    } else {
      SiteOrderMembers(init, id);
      assert forall r :: r in init ==> !Contributes(r, id, h);
    }
    assert Contributes(last, id, h) ==> last in rows;
    assert forall r :: r in rows <==> r in init || r == last;
  }

  lemma {:induction false} EntrySettings(rows: seq<Row>, id: nat)
    requires SiteEntry(rows, id).Some?
    ensures exists r :: r in rows && r.siteId == id && SiteEntry(rows, id).value.upstream == r.upstream
                        && SiteEntry(rows, id).value.offline == (r.status != Running)
  {
    var init, last := rows[..|rows| - 1], rows[|rows| - 1];
    assert rows == init + [last];
    if SiteEntry(init, id).Some? {
      EntrySettings(init, id);
      var r :| r in init && r.siteId == id && SiteEntry(init, id).value.upstream == r.upstream
               && SiteEntry(init, id).value.offline == (r.status != Running);
      assert r in rows;
    } else {
      assert last in rows;
    }
  }

  /** The settings of a site's route are those of its first row. */
  lemma {:induction false} FirstRowDecides(rows: seq<Row>, id: nat, k: nat)
    requires k < |rows| && rows[k].siteId == id && forall j :: 0 <= j < k ==> rows[j].siteId != id
    ensures SiteEntry(rows, id).Some?
    ensures var e := SiteEntry(rows, id).value;
            e.upstream == rows[k].upstream && e.forceHTTPS == rows[k].forceHTTPS && e.redirectTo == ""
            && e.offline == (rows[k].status != Running)
  {
    var n := |rows| - 1;
    if k < n {
      FirstRowDecides(rows[..n], id, k);
    } else {
      SiteOrderMembers(rows[..n], id);
      assert rows[..n] == rows[..k];
    }
  }

  /** A redirect's route has nothing but its name and its target. */
  lemma RedirectsExactly(rows: seq<Row>, e: SiteRoute)
    ensures e in RedirectRoutes(rows)
            <==> exists r :: r in rows && r.redirectTo != ""
                             && e == SiteRoute([r.fqdn], "", r.redirectTo, r.forceHTTPS, false)
  {
    RedirectRoutesMembers(rows, e);
  }

  lemma {:induction false} SiteRoutesMembers(rows: seq<Row>, order: seq<nat>, e: SiteRoute)
    ensures e in SiteRoutes(rows, order) <==>
            e.hosts != [] && exists id :: id in order && SiteEntry(rows, id) == Some(e)
  {
    if order != [] {
      var init, last := order[..|order| - 1], order[|order| - 1];
      SiteRoutesMembers(rows, init, e);
      assert order == init + [last];
      assert last in order && forall id :: id in init ==> id in order;
      var x := SiteEntry(rows, last);
      var tail := if x.Some? && x.value.hosts != [] then [x.value] else [];
      assert SiteRoutes(rows, order) == SiteRoutes(rows, init) + tail;
      assert e in tail <==> e.hosts != [] && SiteEntry(rows, last) == Some(e);
      if id :| id in order && SiteEntry(rows, id) == Some(e) { assert id in init || id == last; }
    }
  }

  lemma {:induction false} RedirectRoutesMembers(rows: seq<Row>, e: SiteRoute)
    ensures e in RedirectRoutes(rows) <==>
            exists r :: r in rows && r.redirectTo != "" && e == RedirectRoute(r)
  {
    if rows != [] {
      RedirectRoutesMembers(rows[..|rows| - 1], e);
      assert rows == rows[..|rows| - 1] + [rows[|rows| - 1]];
    }
  }

  /** A grouped route holds names of rows only, and answers for each as its row asks. */
  lemma MemberMeaning(rows: seq<Row>, e: SiteRoute, h: string, opt: BuildOptions)
    requires Consistent(rows) && e in Group(rows) && h in e.hosts
    ensures exists r :: r in rows && r.fqdn == h && RowAnswer(r, opt) == Answer(e, opt)
                        && (e.redirectTo != "" ==> e == RedirectRoute(r))
                        && (e.redirectTo == "" ==> r.redirectTo == "" && SiteEntry(rows, r.siteId) == Some(e))
  {
    if e in SiteRoutes(rows, SiteOrder(rows)) {
      SiteRoutesMembers(rows, SiteOrder(rows), e);
      var id :| id in SiteOrder(rows) && SiteEntry(rows, id) == Some(e);
      EntryHosts(rows, id, h);
      EntrySettings(rows, id);
      var r :| r in rows && Contributes(r, id, h);
      assert RowAnswer(r, opt) == Answer(e, opt);
    } else {
      RedirectRoutesMembers(rows, e);
    }
  }

  /** Every row's name is in some grouped route. */
  lemma MemberFor(rows: seq<Row>, r: Row) returns (e: SiteRoute)
    requires r in rows
    ensures e in Group(rows) && r.fqdn in e.hosts
  {
    if r.redirectTo != "" {
      e := RedirectRoute(r);
      RedirectRoutesMembers(rows, e);
    } else {
      SiteOrderMembers(rows, r.siteId);
      e := SiteEntry(rows, r.siteId).value;
      EntryHosts(rows, r.siteId, r.fqdn);
      assert Contributes(r, r.siteId, r.fqdn);
      SiteRoutesMembers(rows, SiteOrder(rows), e);
    }
  }

  ghost predicate PairwiseDisjoint(es: seq<SiteRoute>) {
    forall i, j, h :: 0 <= i < j < |es| && h in es[i].hosts ==> h !in es[j].hosts
  }

  lemma SameRow(rows: seq<Row>, r: Row, s: Row)
    requires UniqueNames(rows) && r in rows && s in rows && r.fqdn == s.fqdn
    ensures r == s
  {
    var i :| 0 <= i < |rows| && rows[i] == r;
    var j :| 0 <= j < |rows| && rows[j] == s;
  }

  lemma NotInBoth(rows: seq<Row>, id: nat, other: nat, h: string)
    requires UniqueNames(rows) && id != other
    requires SiteEntry(rows, id).Some? && SiteEntry(rows, other).Some?
    ensures !(h in SiteEntry(rows, id).value.hosts && h in SiteEntry(rows, other).value.hosts)
  {
    EntryHosts(rows, id, h);
    EntryHosts(rows, other, h);
    forall r, s | r in rows && s in rows && r.fqdn == s.fqdn ensures r == s { SameRow(rows, r, s); }
  }

  lemma {:induction false} SiteRoutesDisjoint(rows: seq<Row>, order: seq<nat>)
    requires UniqueNames(rows)
    requires forall i, j :: 0 <= i < j < |order| ==> order[i] != order[j]
    ensures PairwiseDisjoint(SiteRoutes(rows, order))
  {
    if order != [] {
      var init, id := order[..|order| - 1], order[|order| - 1];
      SiteRoutesDisjoint(rows, init);
      var es := SiteRoutes(rows, init);
      var last := SiteEntry(rows, id);
      if last.Some? {
        forall i, h | 0 <= i < |es| && h in es[i].hosts ensures h !in last.value.hosts {
          SiteRoutesMembers(rows, init, es[i]);
          var other :| other in init && SiteEntry(rows, other) == Some(es[i]);
          NotInBoth(rows, id, other, h);
        }
      }
    }
  }

  lemma {:induction false} RedirectRoutesDisjoint(rows: seq<Row>)
    requires UniqueNames(rows)
    ensures PairwiseDisjoint(RedirectRoutes(rows))
  {
    if rows != [] {
      var init, last := rows[..|rows| - 1], rows[|rows| - 1];
      RedirectRoutesDisjoint(init);
      var es := RedirectRoutes(init);
      forall i, h | 0 <= i < |es| && h in es[i].hosts ensures h != last.fqdn {
        RedirectRoutesMembers(init, es[i]);
        var r :| r in init && es[i] == RedirectRoute(r);
        var k :| 0 <= k < |init| && init[k] == r;
        assert rows[k] == r;
      }
    }
  }

  /** Each name of the table lands in exactly one grouped route. */
  lemma GroupDisjoint(rows: seq<Row>)
    requires WellFormed(rows)
    ensures PairwiseDisjoint(Group(rows))
    ensures forall e :: e in Group(rows) ==> e.hosts != []
  {
    SiteOrderDistinct(rows);
    SiteRoutesDisjoint(rows, SiteOrder(rows));
    RedirectRoutesDisjoint(rows);
    var xs, ys := SiteRoutes(rows, SiteOrder(rows)), RedirectRoutes(rows);
    forall e | e in Group(rows) ensures e.hosts != [] {
      SiteRoutesMembers(rows, SiteOrder(rows), e);
      RedirectRoutesMembers(rows, e);
    }
    forall i, j, h | 0 <= i < |xs| && 0 <= j < |ys| && h in xs[i].hosts ensures h !in ys[j].hosts {
      SiteRoutesMembers(rows, SiteOrder(rows), xs[i]);
      RedirectRoutesMembers(rows, ys[j]);
      var id :| id in SiteOrder(rows) && SiteEntry(rows, id) == Some(xs[i]);
      EntryHosts(rows, id, h);
      var r :| r in rows && Contributes(r, id, h);
      var s :| s in rows && s.redirectTo != "" && ys[j] == RedirectRoute(s);
      if s.fqdn == h { SameRow(rows, r, s); }
    }
  }

  lemma GroupSeparated(rows: seq<Row>, opt: BuildOptions)
    requires WellFormed(rows)
    ensures Separated(RenderAll(Group(rows), opt))
  {
    GroupDisjoint(rows);
    var es := Group(rows);
    var rs := RenderAll(es, opt);
    forall r, h | r in rs && h in r.hosts ensures ',' !in h {
      var i :| 0 <= i < |rs| && rs[i] == r;
      MemberMeaning(rows, es[i], h, opt);
    }
    forall r | r in rs ensures r.hosts != [] {
      var i :| 0 <= i < |rs| && rs[i] == r;
      assert es[i] in es;
    }
    forall i, j | 0 <= i < j < |rs| ensures Disjoint(rs[i], rs[j]) {
      assert rs[i].hosts == es[i].hosts && rs[j].hosts == es[j].hosts;
    }
    SeparatedFromIndices(rs);
  }

  // ---- The published configuration keeps the meaning --------------------------------

  ghost predicate Publishes(rows: seq<Row>, opt: BuildOptions, cfg: Config) {
    Compiles(RenderAll(Group(rows), Defaulted(opt)), opt, cfg)
  }

  lemma {:induction false} PublishedAll(rs: seq<Route>)
    requires forall r :: r in rs ==> r.hosts != []
    ensures Published(rs) == rs
  {
    if rs != [] {
      var init, last := rs[..|rs| - 1], rs[|rs| - 1];
      assert rs == init + [last];
      forall r | r in init ensures r.hosts != [] { assert r in rs; }
      assert last in rs && last.hosts != [];
      PublishedAll(init);
    }
  }

  /** Among separated, sorted, terminal routes the matching one with the least key answers. */
  lemma ServeLeast(sorted: seq<Route>, host: string, m: Route)
    requires Separated(sorted) && InOrder(sorted) && m in sorted && RouteMatches(m, host)
    requires forall r :: r in sorted ==> r.terminal
    requires forall r :: r in sorted && RouteMatches(r, host) ==> !Less(Join(r.hosts, ','), Join(m.hosts, ','))
    ensures Serve(sorted, host) == m.handle
  {
    var k :| 0 <= k < |sorted| && sorted[k] == m;
    forall j | 0 <= j < k ensures !RouteMatches(sorted[j], host) {
      if RouteMatches(sorted[j], host) { SameKeySameRoute(sorted, j, k); }
    }
    ServeFirst(sorted, host, k);
  }

  lemma SameKeySameRoute(sorted: seq<Route>, j: int, k: int)
    requires Separated(sorted) && InOrder(sorted) && 0 <= j < k < |sorted|
    ensures Less(Join(sorted[j].hosts, ','), Join(sorted[k].hosts, ','))
  {
    var r, m := sorted[j], sorted[k];
    var a, b := Join(r.hosts, ','), Join(m.hosts, ',');
    LessTotal(a, b);
    assert !Less(b, a);
    if a == b {
      JoinInjective(r.hosts, m.hosts, ',');
      assert r.hosts[0] in m.hosts;
      assert r != m ==> Disjoint(r, m);
      CountTwice(sorted, j, k);
    }
  }

  lemma RenderMembers(es: seq<SiteRoute>, opt: BuildOptions)
    ensures forall r {:trigger r in RenderAll(es, opt)} ::
              r in RenderAll(es, opt) <==> exists e :: e in es && r == Render(e, opt)
  {
    var rs := RenderAll(es, opt);
    forall r | r in rs ensures exists e :: e in es && r == Render(e, opt) {
      var i :| 0 <= i < |rs| && rs[i] == r;
      assert es[i] in es;
    }
    forall e | e in es ensures Render(e, opt) in rs {
      var i :| 0 <= i < |es| && es[i] == e;
      assert rs[i] == Render(e, opt);
    }
  }

  lemma AssembledRoutes(sorted: seq<Route>, opt: BuildOptions)
    requires forall r :: r in sorted ==> r.hosts != []
    ensures Assemble(sorted, Defaulted(opt)).routes == FixedRoutes(opt) + sorted
  {
    PublishedAll(sorted);
  }

  /** The rendered routes, in any arrangement. */
  ghost predicate Arranges(rows: seq<Row>, opt: BuildOptions, sorted: seq<Route>) {
    multiset(sorted) == multiset(RenderAll(Group(rows), Defaulted(opt)))
  }

  lemma ArrangedMembers(rows: seq<Row>, opt: BuildOptions, sorted: seq<Route>)
    requires Arranges(rows, opt, sorted)
    ensures forall r {:trigger r in sorted} ::
              r in sorted <==> exists e :: e in Group(rows) && r == Render(e, Defaulted(opt))
    ensures forall r :: r in sorted ==> r.terminal
  {
    SameMembers(sorted, RenderAll(Group(rows), Defaulted(opt)));
    RenderMembers(Group(rows), Defaulted(opt));
  }

  lemma ArrangedSeparated(rows: seq<Row>, opt: BuildOptions, sorted: seq<Route>)
    requires WellFormed(rows) && Arranges(rows, opt, sorted)
    ensures Separated(sorted)
  {
    GroupSeparated(rows, Defaulted(opt));
    SeparatedPermutation(RenderAll(Group(rows), Defaulted(opt)), sorted);
  }

  lemma ArrangedFor(rows: seq<Row>, opt: BuildOptions, cfg: Config) returns (sorted: seq<Route>)
    requires Publishes(rows, opt, cfg)
    ensures Arranges(rows, opt, sorted) && InOrder(sorted) && cfg == Assemble(sorted, Defaulted(opt))
  {
    var rs := RenderAll(Group(rows), Defaulted(opt));
    sorted :| multiset(sorted) == multiset(rs) && InOrder(sorted) && cfg == Assemble(sorted, Defaulted(opt));
  }

  /** The sorted client routes behind a published configuration. */
  lemma SortedRoutes(rows: seq<Row>, opt: BuildOptions, cfg: Config) returns (sorted: seq<Route>)
    requires WellFormed(rows) && Publishes(rows, opt, cfg)
    ensures Separated(sorted) && InOrder(sorted) && cfg.routes == FixedRoutes(opt) + sorted
    ensures forall r :: r in sorted ==> r.terminal
    ensures forall r {:trigger r in sorted} ::
              r in sorted <==> exists e :: e in Group(rows) && r == Render(e, Defaulted(opt))
  {
    sorted := ArrangedFor(rows, opt, cfg);
    ArrangedMembers(rows, opt, sorted);
    ArrangedSeparated(rows, opt, sorted);
    AssembledRoutes(sorted, opt);
  }

  /** The panel's or the webmail's own route answers. */
  predicate FixedAnswers(opt: BuildOptions, host: string) {
    (opt.panelHost != "" && opt.panelUpstream != "" && HostMatches(opt.panelHost, host))
    || (opt.webmailHost != "" && opt.webmailUpstream != "" && HostMatches(opt.webmailHost, host))
  }

  /** The grouped route that matches the host and has the least sort key of those that do. */
  ghost predicate Wins(rows: seq<Row>, opt: BuildOptions, host: string, e: SiteRoute) {
    && e in Group(rows) && RouteMatches(Render(e, opt), host)
    && forall f :: f in Group(rows) && RouteMatches(Render(f, opt), host)
                   ==> !Less(Join(f.hosts, ','), Join(e.hosts, ','))
  }

  /** Whatever wildcards the table holds: after panel and webmail, a host is answered by the
      matching route with the least sort key. */
  lemma LeastMatchServes(rows: seq<Row>, opt: BuildOptions, cfg: Config, host: string, e: SiteRoute)
    requires WellFormed(rows) && Publishes(rows, opt, cfg) && !FixedAnswers(opt, host)
    ensures Wins(rows, opt, host, e) ==> Serve(cfg.routes, host) == Guards(opt) + [Answer(e, Defaulted(opt))]
  {
    if Wins(rows, opt, host, e) { WinnerServes(rows, opt, cfg, host, e); }
  }

  /** The winner is the least of the rendered routes that match. */
  lemma WinnerIsLeast(rows: seq<Row>, opt: BuildOptions, host: string, e: SiteRoute, r: Route)
    requires Wins(rows, opt, host, e) && RouteMatches(r, host)
    requires exists f :: f in Group(rows) && r == Render(f, Defaulted(opt))
    ensures !Less(Join(r.hosts, ','), Join(Render(e, Defaulted(opt)).hosts, ','))
    ensures RouteMatches(Render(e, Defaulted(opt)), host)
  {
    var f :| f in Group(rows) && r == Render(f, Defaulted(opt));
    assert r.hosts == Render(f, opt).hosts && Render(e, Defaulted(opt)).hosts == Render(e, opt).hosts;
    assert RouteMatches(Render(f, opt), host);
  }

  lemma WinnerServes(rows: seq<Row>, opt: BuildOptions, cfg: Config, host: string, e: SiteRoute)
    requires WellFormed(rows) && Publishes(rows, opt, cfg) && Wins(rows, opt, host, e) && !FixedAnswers(opt, host)
    ensures Serve(cfg.routes, host) == Guards(opt) + [Answer(e, Defaulted(opt))]
  {
    var sorted := SortedRoutes(rows, opt, cfg);
    var m := Render(e, Defaulted(opt));
    assert m.hosts == Render(e, opt).hosts && RouteMatches(m, host);
    forall r | r in sorted && RouteMatches(r, host) ensures !Less(Join(r.hosts, ','), Join(m.hosts, ',')) {
      WinnerIsLeast(rows, opt, host, e, r);
    }
    ServeLeast(sorted, host, m);
    ServeFixed(opt, sorted, host);
    DefaultsKeepGuards(opt);
  }

  lemma OneHost(r: Route, host: string)
    requires |r.hosts| == 1
    ensures RouteMatches(r, host) <==> HostMatches(r.hosts[0], host)
  {
    if HostMatches(r.hosts[0], host) { assert 0 <= 0 < |r.hosts|; }
  }

  lemma ServeFixed(opt: BuildOptions, sorted: seq<Route>, host: string)
    ensures Serve(FixedRoutes(opt) + sorted, host) ==
            if opt.panelHost != "" && opt.panelUpstream != "" && HostMatches(opt.panelHost, host)
            then [Proxy(opt.panelUpstream, true)]
            else if opt.webmailHost != "" && opt.webmailUpstream != "" && HostMatches(opt.webmailHost, host)
            then [Proxy(opt.webmailUpstream, true)]
            else Serve(sorted, host)
  {
    var panel := Route([opt.panelHost], [Proxy(opt.panelUpstream, true)], true);
    var webmail := Route([opt.webmailHost], [Proxy(opt.webmailUpstream, true)], true);
    var a := if opt.panelHost != "" && opt.panelUpstream != "" then [panel] else [];
    var b := if opt.webmailHost != "" && opt.webmailUpstream != "" then [webmail] else [];
    assert FixedRoutes(opt) + sorted == a + (b + sorted);
    ServeConcat(a, b + sorted, host);
    ServeConcat(b, sorted, host);
    OneHost(panel, host);
    OneHost(webmail, host);
  }

  /** No wildcard name of the table, other than the host itself, covers the host. */
  ghost predicate NoWildcardOver(rows: seq<Row>, host: string) {
    forall r :: r in rows && HostMatches(r.fqdn, host) ==> r.fqdn == host
  }

  lemma MatchIsMember(rows: seq<Row>, opt: BuildOptions, e: SiteRoute, host: string)
    requires Consistent(rows) && NoWildcardOver(rows, host) && e in Group(rows)
    ensures RouteMatches(Render(e, opt), host) <==> host in e.hosts
  {
    var r := Render(e, opt);
    if RouteMatches(r, host) {
      var i :| 0 <= i < |r.hosts| && HostMatches(r.hosts[i], host);
      MemberMeaning(rows, e, e.hosts[i], opt);
    }
    if host in e.hosts {
      var i :| 0 <= i < |r.hosts| && r.hosts[i] == host;
      assert HostMatches(r.hosts[i], host);
    }
  }

  lemma MatchesAreMembers(rows: seq<Row>, opt: BuildOptions, sorted: seq<Route>, host: string)
    requires Consistent(rows) && NoWildcardOver(rows, host)
    requires forall r :: r in sorted ==> exists e :: e in Group(rows) && r == Render(e, opt)
    ensures forall r :: r in sorted ==> (RouteMatches(r, host) <==> host in r.hosts)
  {
    forall r | r in sorted ensures RouteMatches(r, host) <==> host in r.hosts {
      var e :| e in Group(rows) && r == Render(e, opt);
      MatchIsMember(rows, opt, e, host);
    }
  }

  /** A separated list answers for a host in one of its routes with that route. */
  lemma ServeMember(sorted: seq<Route>, host: string, m: Route)
    requires Separated(sorted) && InOrder(sorted) && m in sorted && host in m.hosts
    requires forall r :: r in sorted ==> r.terminal
    requires forall r :: r in sorted ==> (RouteMatches(r, host) <==> host in r.hosts)
    ensures Serve(sorted, host) == m.handle
  {
    forall s | s in sorted && RouteMatches(s, host) ensures s == m {
      assert s != m ==> Disjoint(s, m);
    }
    LessIrreflexive(Join(m.hosts, ','));
    ServeLeast(sorted, host, m);
  }

  lemma ListedHostServed(rows: seq<Row>, opt: BuildOptions, sorted: seq<Route>, row: Row)
    requires WellFormed(rows) && NoWildcardOver(rows, row.fqdn) && row in rows
    requires Separated(sorted) && InOrder(sorted) && forall r :: r in sorted ==> r.terminal
    requires forall r {:trigger r in sorted} :: r in sorted <==> exists e :: e in Group(rows) && r == Render(e, opt)
    ensures Serve(sorted, row.fqdn) == Guards(opt) + [RowAnswer(row, opt)]
  {
    var e := MemberFor(rows, row);
    MemberMeaning(rows, e, row.fqdn, opt);
    var r :| r in rows && r.fqdn == row.fqdn && RowAnswer(r, opt) == Answer(e, opt);
    SameRow(rows, r, row);
    MatchesAreMembers(rows, opt, sorted, row.fqdn);
    ServeMember(sorted, row.fqdn, Render(e, opt));
  }

  lemma UnlistedHostUnserved(rows: seq<Row>, opt: BuildOptions, sorted: seq<Route>, host: string)
    requires Consistent(rows) && NoWildcardOver(rows, host) && forall r :: r in rows ==> r.fqdn != host
    requires forall r :: r in sorted ==> exists e :: e in Group(rows) && r == Render(e, opt)
    ensures Serve(sorted, host) == []
  {
    MatchesAreMembers(rows, opt, sorted, host);
    forall r | r in sorted ensures host !in r.hosts {
      var e :| e in Group(rows) && r == Render(e, opt);
      if host in e.hosts { MemberMeaning(rows, e, host, opt); }
    }
    ServeNothing(sorted, host);
  }

  lemma DefaultsKeepGuards(opt: BuildOptions)
    ensures Guards(Defaulted(opt)) == Guards(opt)
  {
  }

  lemma ListedMeaning(rows: seq<Row>, opt: BuildOptions, cfg: Config, host: string)
    requires WellFormed(rows) && Publishes(rows, opt, cfg) && NoWildcardOver(rows, host)
    ensures (exists row :: row in rows && row.fqdn == host) ==> Serve(cfg.routes, host) == Intended(rows, opt, host)
  {
    if row :| row in rows && row.fqdn == host {
      var sorted := SortedRoutes(rows, opt, cfg);
      ServeFixed(opt, sorted, host);
      ListedHostServed(rows, Defaulted(opt), sorted, row);
      DefaultsKeepGuards(opt);
      IntendedRow(rows, opt, host, row);
    }
  }

  lemma UnlistedMeaning(rows: seq<Row>, opt: BuildOptions, cfg: Config, host: string)
    requires WellFormed(rows) && Publishes(rows, opt, cfg) && NoWildcardOver(rows, host)
    requires forall r :: r in rows ==> r.fqdn != host
    ensures Serve(cfg.routes, host) == Intended(rows, opt, host)
  {
    var sorted := SortedRoutes(rows, opt, cfg);
    ServeFixed(opt, sorted, host);
    UnlistedHostUnserved(rows, Defaulted(opt), sorted, host);
  }

  /** The published configuration answers for every host as the routing table asks. */
  lemma PublishedMeaning(rows: seq<Row>, opt: BuildOptions, cfg: Config, host: string)
    requires WellFormed(rows) && Publishes(rows, opt, cfg) && NoWildcardOver(rows, host)
    ensures Serve(cfg.routes, host) == Intended(rows, opt, host)
  {
    if exists row :: row in rows && row.fqdn == host {
      ListedMeaning(rows, opt, cfg, host);
    } else {
      UnlistedMeaning(rows, opt, cfg, host);
    }
  }

  lemma IntendedRow(rows: seq<Row>, opt: BuildOptions, host: string, row: Row)
    requires UniqueNames(rows) && row in rows && row.fqdn == host
    ensures Intended(rows, opt, host) ==
            if opt.panelHost != "" && opt.panelUpstream != "" && HostMatches(opt.panelHost, host)
            then [Proxy(opt.panelUpstream, true)]
            else if opt.webmailHost != "" && opt.webmailUpstream != "" && HostMatches(opt.webmailHost, host)
            then [Proxy(opt.webmailUpstream, true)]
            else Guards(opt) + [RowAnswer(row, Defaulted(opt))]
  {
    forall r | r in rows && r.fqdn == host ensures r == row { SameRow(rows, r, row); }
  }

  /** A route matches a host when one of its rows' names does. */
  lemma RouteForMatch(rows: seq<Row>, opt: BuildOptions, host: string, r: Row) returns (e: SiteRoute)
    requires r in rows && HostMatches(r.fqdn, host)
    ensures e in Group(rows) && RouteMatches(Render(e, opt), host)
  {
    e := MemberFor(rows, r);
    var i :| 0 <= i < |e.hosts| && e.hosts[i] == r.fqdn;
    assert HostMatches(Render(e, opt).hosts[i], host);
  }

  lemma MatchHasRow(rows: seq<Row>, opt: BuildOptions, host: string, e: SiteRoute)
    requires Consistent(rows) && e in Group(rows) && RouteMatches(Render(e, opt), host)
    ensures exists r :: r in rows && HostMatches(r.fqdn, host)
  {
    var i :| 0 <= i < |e.hosts| && HostMatches(e.hosts[i], host);
    MemberMeaning(rows, e, e.hosts[i], opt);
  }

  /** Among the first n grouped routes that match, one has the least key. */
  lemma {:induction false} LeastAmong(es: seq<SiteRoute>, opt: BuildOptions, host: string) returns (least: SiteRoute)
    requires exists e :: e in es && RouteMatches(Render(e, opt), host)
    ensures least in es && RouteMatches(Render(least, opt), host)
    ensures forall f :: f in es && RouteMatches(Render(f, opt), host)
                        ==> !Less(Join(f.hosts, ','), Join(least.hosts, ','))
  {
    var init, last := es[..|es| - 1], es[|es| - 1];
    assert es == init + [last];
    LessIrreflexive(Join(last.hosts, ','));
    if exists e :: e in init && RouteMatches(Render(e, opt), host) {
      least := LeastAmong(init, opt, host);
      if RouteMatches(Render(last, opt), host) && Less(Join(last.hosts, ','), Join(least.hosts, ',')) {
        forall f | f in init && RouteMatches(Render(f, opt), host)
          ensures !Less(Join(f.hosts, ','), Join(last.hosts, ','))
        {
          if Less(Join(f.hosts, ','), Join(last.hosts, ',')) {
            LessTransitive(Join(f.hosts, ','), Join(last.hosts, ','), Join(least.hosts, ','));
          }
        }
        least := last;
      }
    } else {
      least := last;
    }
  }

  /** Some route wins a host exactly when some name of the table covers it. */
  lemma WinnerExists(rows: seq<Row>, opt: BuildOptions, host: string)
    requires Consistent(rows)
    ensures (exists e :: Wins(rows, opt, host, e)) <==> exists r :: r in rows && HostMatches(r.fqdn, host)
  {
    if r :| r in rows && HostMatches(r.fqdn, host) {
      var e := RouteForMatch(rows, opt, host, r);
      var least := LeastAmong(Group(rows), opt, host);
      assert Wins(rows, opt, host, least);
    }
    if e :| Wins(rows, opt, host, e) { MatchHasRow(rows, opt, host, e); }
  }

  lemma NoMatchUnserved(rows: seq<Row>, opt: BuildOptions, cfg: Config, host: string)
    requires WellFormed(rows) && Publishes(rows, opt, cfg) && !FixedAnswers(opt, host)
    requires forall r :: r in rows ==> !HostMatches(r.fqdn, host)
    ensures Serve(cfg.routes, host) == []
  {
    var sorted := SortedRoutes(rows, opt, cfg);
    ServeFixed(opt, sorted, host);
    forall r | r in sorted ensures !RouteMatches(r, host) {
      var e :| e in Group(rows) && r == Render(e, Defaulted(opt));
      if RouteMatches(r, host) { MatchHasRow(rows, Defaulted(opt), host, e); }
    }
    ServeNothing(sorted, host);
  }

  /** Every host, wildcards or not: something answers exactly when the panel or webmail does, or
      some name of the table covers the host. */
  lemma ServedExactly(rows: seq<Row>, opt: BuildOptions, cfg: Config, host: string)
    requires WellFormed(rows) && Publishes(rows, opt, cfg)
    ensures Serve(cfg.routes, host) != []
            <==> FixedAnswers(opt, host) || exists r :: r in rows && HostMatches(r.fqdn, host)
  {
    if FixedAnswers(opt, host) {
      var sorted := SortedRoutes(rows, opt, cfg);
      ServeFixed(opt, sorted, host);
    } else if r :| r in rows && HostMatches(r.fqdn, host) {
      WinnerExists(rows, opt, host);
      var e :| Wins(rows, opt, host, e);
      LeastMatchServes(rows, opt, cfg, host, e);
    } else {
      NoMatchUnserved(rows, opt, cfg, host);
    }
  }

  lemma SameAnswer(guards: seq<Handler>, x: Handler, y: Handler)
    ensures guards + [x] == guards + [y] <==> x == y
  {
    assert (guards + [x])[|guards|] == x && (guards + [y])[|guards|] == y;
  }

  /** The row named like the host asks for this route's answer. */
  ghost predicate AsAsked(rows: seq<Row>, opt: BuildOptions, host: string, e: SiteRoute) {
    exists row :: row in rows && row.fqdn == host && RowAnswer(row, Defaulted(opt)) == Answer(e, Defaulted(opt))
  }

  lemma WinnerMeaning(rows: seq<Row>, opt: BuildOptions, cfg: Config, host: string, e: SiteRoute)
    requires WellFormed(rows) && Publishes(rows, opt, cfg) && !FixedAnswers(opt, host)
    ensures Wins(rows, opt, host, e) ==>
              (Serve(cfg.routes, host) == Intended(rows, opt, host) <==> AsAsked(rows, opt, host, e))
  {
    LeastMatchServes(rows, opt, cfg, host, e);
    if row :| row in rows && row.fqdn == host {
      IntendedRow(rows, opt, host, row);
      SameAnswer(Guards(opt), Answer(e, Defaulted(opt)), RowAnswer(row, Defaulted(opt)));
      forall r | r in rows && r.fqdn == host ensures r == row { SameRow(rows, r, row); }
    }
  }

  lemma FixedMeaning(rows: seq<Row>, opt: BuildOptions, cfg: Config, host: string)
    requires WellFormed(rows) && Publishes(rows, opt, cfg) && FixedAnswers(opt, host)
    ensures Serve(cfg.routes, host) == Intended(rows, opt, host)
  {
    var sorted := SortedRoutes(rows, opt, cfg);
    ServeFixed(opt, sorted, host);
  }

  lemma RowAnswers(row: Row, opt: BuildOptions)
    ensures Answers(RowAnswer(row, Defaulted(opt)), row.redirectTo, row.status == Running, row.upstream,
                    opt.maintenanceMessage)
    ensures Guarded(Guards(opt) + [RowAnswer(row, Defaulted(opt))], opt.wafEnabled, opt.rateLimitPerMinute,
                    opt.corazaDirectives, RowAnswer(row, Defaulted(opt)))
  {
    RedirectSends(row.redirectTo);
  }

  /** What a visitor of a listed host gets when no other name covers it: behind the guards, the
      redirect with the path kept, the page, or the site. */
  ghost predicate GetsRow(hs: seq<Handler>, row: Row, opt: BuildOptions) {
    exists last :: Guarded(hs, opt.wafEnabled, opt.rateLimitPerMinute, opt.corazaDirectives, last)
                   && Answers(last, row.redirectTo, row.status == Running, row.upstream, opt.maintenanceMessage)
  }

  lemma RowServed(rows: seq<Row>, opt: BuildOptions, cfg: Config, row: Row)
    requires WellFormed(rows) && Publishes(rows, opt, cfg) && NoWildcardOver(rows, row.fqdn) && row in rows
    requires !FixedAnswers(opt, row.fqdn)
    ensures GetsRow(Serve(cfg.routes, row.fqdn), row, opt)
  {
    PublishedMeaning(rows, opt, cfg, row.fqdn);
    IntendedRow(rows, opt, row.fqdn, row);
    RowAnswers(row, opt);
  }

  /** With any wildcards, for any host: the published configuration keeps the table's meaning
      exactly when the panel or webmail answers, or no name covers the host, or the covering route
      that sorts first gives what the row named like the host asks. */
  lemma MeaningExactly(rows: seq<Row>, opt: BuildOptions, cfg: Config, host: string)
    requires WellFormed(rows) && Publishes(rows, opt, cfg)
    ensures Serve(cfg.routes, host) == Intended(rows, opt, host)
            <==> FixedAnswers(opt, host) || forall e :: Wins(rows, opt, host, e) ==> AsAsked(rows, opt, host, e)
    ensures (exists e :: Wins(rows, opt, host, e)) <==> exists r :: r in rows && HostMatches(r.fqdn, host)
  {
    WinnerExists(rows, opt, host);
    if FixedAnswers(opt, host) {
      FixedMeaning(rows, opt, cfg, host);
    } else if e :| Wins(rows, opt, host, e) {
      forall f | Wins(rows, opt, host, f)
        ensures Serve(cfg.routes, host) == Intended(rows, opt, host) <==> AsAsked(rows, opt, host, f)
      {
        WinnerMeaning(rows, opt, cfg, host, f);
      }
    } else {
      NoMatchUnserved(rows, opt, cfg, host);
      forall r | r in rows ensures r.fqdn != host { assert HostMatches(r.fqdn, r.fqdn); }
    }
  }

  /** The route of a site whose only row is `r`. */
  function OnlyRoute(r: Row): SiteRoute {
    SiteRoute([r.fqdn], r.upstream, "", r.forceHTTPS, r.status != Running)
  }

  lemma ShadowWins(r1: Row, r2: Row, opt: BuildOptions)
    requires r1.siteId != r2.siteId && r1.redirectTo == "" && r2.redirectTo == ""
    requires HostMatches(r1.fqdn, r2.fqdn) && Less(r1.fqdn, r2.fqdn)
    ensures Group([r1, r2]) == [OnlyRoute(r1), OnlyRoute(r2)]
    ensures !Less(Join(OnlyRoute(r2).hosts, ','), Join(OnlyRoute(r1).hosts, ','))
    ensures Wins([r1, r2], opt, r2.fqdn, OnlyRoute(r1))
  {
    ShadowGroup(r1, r2, OnlyRoute(r1), OnlyRoute(r2));
    LessIrreflexive(r1.fqdn);
    LessAsymmetric(r1.fqdn, r2.fqdn);
    OneHost(Render(OnlyRoute(r1), opt), r2.fqdn);
    assert Join(OnlyRoute(r1).hosts, ',') == r1.fqdn && Join(OnlyRoute(r2).hosts, ',') == r2.fqdn;
  }

  /** A wildcard of one site takes over another site's exact name when it sorts first. */
  lemma WildcardShadows(r1: Row, r2: Row, opt: BuildOptions) returns (cfg: Config)
    requires r1.siteId != r2.siteId && r1.redirectTo == "" && r2.redirectTo == ""
    requires HostMatches(r1.fqdn, r2.fqdn) && Less(r1.fqdn, r2.fqdn) && ',' !in r1.fqdn && ',' !in r2.fqdn
    requires !FixedAnswers(opt, r2.fqdn)
    ensures WellFormed([r1, r2]) && Publishes([r1, r2], opt, cfg)
    ensures Serve(cfg.routes, r2.fqdn) == Guards(opt) + [RowAnswer(r1, Defaulted(opt))]
    ensures Intended([r1, r2], opt, r2.fqdn) == Guards(opt) + [RowAnswer(r2, Defaulted(opt))]
  {
    ShadowWins(r1, r2, opt);
    LessIrreflexive(r1.fqdn);
    TwoRows(r1, r2);
    cfg := PublishTwo([r1, r2], opt, OnlyRoute(r1), OnlyRoute(r2));
    assert Answer(OnlyRoute(r1), Defaulted(opt)) == RowAnswer(r1, Defaulted(opt));
    LeastMatchServes([r1, r2], opt, cfg, r2.fqdn, OnlyRoute(r1));
    IntendedRow([r1, r2], opt, r2.fqdn, r2);
  }

  lemma TwoRows(r1: Row, r2: Row)
    requires r1.siteId != r2.siteId && r1.fqdn != r2.fqdn && ',' !in r1.fqdn && ',' !in r2.fqdn
    ensures WellFormed([r1, r2])
  {
  }

  lemma PublishTwo(rows: seq<Row>, opt: BuildOptions, e1: SiteRoute, e2: SiteRoute) returns (cfg: Config)
    requires Group(rows) == [e1, e2] && !Less(Join(e2.hosts, ','), Join(e1.hosts, ','))
    ensures Publishes(rows, opt, cfg)
  {
    var sorted := RenderAll(Group(rows), Defaulted(opt));
    assert sorted[0].hosts == e1.hosts && sorted[1].hosts == e2.hosts;
    assert InOrder(sorted);
    cfg := Assemble(sorted, Defaulted(opt));
  }

  lemma TwoUpstreams(r1: Row, r2: Row, opt: BuildOptions)
    requires r1.redirectTo == "" && r1.status == Running && r1.upstream == "one:80"
    requires r2.redirectTo == "" && r2.status == Running && r2.upstream == "two:80"
    ensures RowAnswer(r1, Defaulted(opt)) != RowAnswer(r2, Defaulted(opt))
  {
    assert r1.upstream[0] != r2.upstream[0];
  }

  /** A concrete table whose published configuration does not keep its meaning. */
  lemma ShadowExample(opt: BuildOptions) returns (rows: seq<Row>, cfg: Config)
    requires !FixedAnswers(opt, "b.a.io")
    ensures rows == [Row("*.a.io", "one:80", "", true, 1, Running), Row("b.a.io", "two:80", "", true, 2, Running)]
    ensures WellFormed(rows) && Publishes(rows, opt, cfg)
    ensures Serve(cfg.routes, "b.a.io") != Intended(rows, opt, "b.a.io")
  {
    var r1, r2 := Row("*.a.io", "one:80", "", true, 1, Running), Row("b.a.io", "two:80", "", true, 2, Running);
    ShadowNames(r1.fqdn, r2.fqdn);
    rows := [r1, r2];
    cfg := WildcardShadows(r1, r2, opt);
    TwoUpstreams(r1, r2, opt);
    SameAnswer(Guards(opt), RowAnswer(r1, Defaulted(opt)), RowAnswer(r2, Defaulted(opt)));
  }

  /** Names of that kind exist: `*` precedes every letter and digit. */
  lemma ShadowNames(a: string, b: string)
    requires a == "*.a.io" && b == "b.a.io"
    ensures HostMatches(a, b) && Less(a, b) && ',' !in a && ',' !in b
  {
    assert b[1..] == a[1..] && b[..1] == "b" && a[..2] == "*.";
  }

  lemma EntryOfOne(r: Row, id: nat)
    ensures SiteEntry([r], id) ==
            if r.siteId != id then None
            else Some(SiteRoute(if r.redirectTo != "" then [] else [r.fqdn],
                                r.upstream, "", r.forceHTTPS, r.status != Running))
  {
    assert [r][..0] == [];
    assert SiteEntry([], id) == None;
    assert [] + [r.fqdn] == [r.fqdn];
  }

  lemma ShadowEntries(r1: Row, r2: Row)
    requires r1.siteId != r2.siteId && r2.redirectTo == ""
    ensures SiteOrder([r1, r2]) == [r1.siteId, r2.siteId]
    ensures SiteEntry([r1, r2], r1.siteId) == SiteEntry([r1], r1.siteId)
    ensures SiteEntry([r1, r2], r2.siteId) ==
            Some(SiteRoute([r2.fqdn], r2.upstream, "", r2.forceHTTPS, r2.status != Running))
  {
    var rows := [r1, r2];
    assert rows[..1] == [r1] && [r1][..0] == [];
    assert SiteOrder([]) == [] && SiteOrder([r1]) == [r1.siteId];
    EntryOfOne(r1, r2.siteId);
    assert [] + [r2.fqdn] == [r2.fqdn];
  }

  lemma TwoSiteRoutes(rows: seq<Row>, a: nat, b: nat, e1: SiteRoute, e2: SiteRoute)
    requires SiteEntry(rows, a) == Some(e1) && SiteEntry(rows, b) == Some(e2)
    requires e1.hosts != [] && e2.hosts != []
    ensures SiteRoutes(rows, [a, b]) == [e1, e2]
  {
    assert [a, b][..1] == [a] && [a][..0] == [];
    assert SiteRoutes(rows, []) == [];
    assert SiteRoutes(rows, [a]) == [] + [e1] == [e1];
  }

  lemma ShadowGroup(r1: Row, r2: Row, e1: SiteRoute, e2: SiteRoute)
    requires r1.redirectTo == "" && r2.redirectTo == "" && r1.siteId != r2.siteId
    requires e1 == SiteRoute([r1.fqdn], r1.upstream, "", r1.forceHTTPS, r1.status != Running)
    requires e2 == SiteRoute([r2.fqdn], r2.upstream, "", r2.forceHTTPS, r2.status != Running)
    ensures Group([r1, r2]) == [e1, e2]
  {
    ShadowEntries(r1, r2);
    EntryOfOne(r1, r1.siteId);
    TwoSiteRoutes([r1, r2], r1.siteId, r2.siteId, e1, e2);
    assert [r1, r2][..1] == [r1] && [r1][..0] == [];
    assert RedirectRoutes([]) == [] && RedirectRoutes([r1]) == [];
  }

  // ---- On-demand TLS ----------------------------------------------------------------

  datatype AskReply = BadRequest | Allowed | Forbidden | QueryFailed

  /** handleTLSAuthorize; `table` is the outcome of the routing-table query. */
  method TlsAuthorize(domain: string, panelHost: string, table: Option<seq<Row>>) returns (reply: AskReply)
    ensures reply == BadRequest <==> domain == ""
    ensures reply == QueryFailed <==> domain != "" && domain != panelHost && table.None?
    ensures reply == Allowed <==>
            domain != "" && (domain == panelHost
                             || (table.Some? && exists e :: e in Group(table.value) && domain in e.hosts))
  {
    if domain == "" { return BadRequest; }
    if domain == panelHost { return Allowed; }
    if table.None? { return QueryFailed; }
    var rows := table.value;
    for n := 0 to |rows|
      invariant forall i :: 0 <= i < n ==> rows[i].fqdn != domain
    {
      if rows[n].fqdn == domain {
        ghost var e := MemberFor(rows, rows[n]);
        return Allowed;
      }
    }
    forall e | e in Group(rows) && domain in e.hosts ensures false { HostHasRow(rows, e, domain); }
    return Forbidden;
  }

  lemma HostHasRow(rows: seq<Row>, e: SiteRoute, h: string)
    requires e in Group(rows) && h in e.hosts
    ensures exists i :: 0 <= i < |rows| && rows[i].fqdn == h
  {
    if e in SiteRoutes(rows, SiteOrder(rows)) {
      SiteRoutesMembers(rows, SiteOrder(rows), e);
      var id :| id in SiteOrder(rows) && SiteEntry(rows, id) == Some(e);
      EntryHosts(rows, id, h);
    } else {
      RedirectRoutesMembers(rows, e);
    }
  }
}
