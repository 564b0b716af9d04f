/** When one published configuration is true to two databases: exactly when both show the same
    names, in the same routes, with the same answers. So every operation that does not publish is
    classified, and every run. */
module EdgeEquivalence {
  import opened Strings
  import opened Wrappers
  import opened CaddyConfig
  import opened EdgeSync
  import opened EdgeCoherence

  // ---- Routing tables ---------------------------------------------------------------

  ghost predicate SortedByName(rows: seq<Row>) {
    forall i, j :: 0 <= i < j < |rows| ==> Less(rows[i].fqdn, rows[j].fqdn)
  }

  /** Both rows go into one route. */
  predicate RowsTogether(r: Row, q: Row) {
    r == q || (r.siteId == q.siteId && r.redirectTo == "" && q.redirectTo == "")
  }

  function ShownAnswer(r: Row, opt: BuildOptions): seq<Handler> { Guards(opt) + [RowAnswer(r, Defaulted(opt))] }

  ghost predicate NamedIn(name: string, rows: seq<Row>) { exists r :: r in rows && r.fqdn == name }

  ghost predicate SameNames(xs: seq<Row>, ys: seq<Row>) {
    forall name :: NamedIn(name, xs) <==> NamedIn(name, ys)
  }

  ghost predicate SameAnswers(xs: seq<Row>, ys: seq<Row>, a: BuildOptions, b: BuildOptions) {
    forall r, s :: r in xs && s in ys && r.fqdn == s.fqdn ==> ShownAnswer(r, a) == ShownAnswer(s, b)
  }

  ghost predicate SameGrouping(xs: seq<Row>, ys: seq<Row>) {
    forall r, q, s, t :: r in xs && q in xs && s in ys && t in ys && r.fqdn == s.fqdn && q.fqdn == t.fqdn
                         ==> (RowsTogether(r, q) <==> RowsTogether(s, t))
  }

  ghost predicate SameTables(xs: seq<Row>, ys: seq<Row>, a: BuildOptions, b: BuildOptions) {
    SameNames(xs, ys) && SameAnswers(xs, ys, a, b) && SameGrouping(xs, ys)
  }

  ghost predicate Table(rows: seq<Row>) { WellFormed(rows) && SortedByName(rows) }

  /** The hosts of a route are the names of the rows that go together with any one of them. */
  lemma HostsTogether(rows: seq<Row>, e: SiteRoute, r: Row, q: Row, opt: BuildOptions)
    requires WellFormed(rows) && e in Group(rows) && r in rows && q in rows && r.fqdn in e.hosts
    ensures q.fqdn in e.hosts <==> RowsTogether(r, q)
    ensures Answer(e, opt) == RowAnswer(r, opt)
  {
    RouteOfRow(rows, e, r, opt);
    if q.fqdn in e.hosts && r != q {
      RouteOfRow(rows, e, q, opt);
      if e.redirectTo == "" && r.siteId != q.siteId { NotInBoth(rows, r.siteId, q.siteId, r.fqdn); }
    }
    if RowsTogether(r, q) && r != q {
      EntryHosts(rows, r.siteId, q.fqdn);
      assert Contributes(q, r.siteId, q.fqdn);
    }
  }

  lemma RouteOfRow(rows: seq<Row>, e: SiteRoute, r: Row, opt: BuildOptions)
    requires WellFormed(rows) && e in Group(rows) && r in rows && r.fqdn in e.hosts
    ensures Answer(e, opt) == RowAnswer(r, opt)
    ensures e.redirectTo != "" ==> e == RedirectRoute(r)
    ensures e.redirectTo == "" ==> r.redirectTo == "" && SiteEntry(rows, r.siteId) == Some(e)
  {
    MemberMeaning(rows, e, r.fqdn, opt);
    forall q | q in rows && q.fqdn == r.fqdn ensures q == r { SameRow(rows, q, r); }
  }

  lemma {:induction false} EntrySorted(rows: seq<Row>, id: nat)
    requires SortedByName(rows) && SiteEntry(rows, id).Some?
    ensures StrictlySorted(SiteEntry(rows, id).value.hosts)
  {
    var n := |rows| - 1;
    var init, last := rows[..n], rows[n];
    if SiteEntry(init, id).Some? {
      EntrySorted(init, id);
      var hosts := SiteEntry(init, id).value.hosts;
      forall i | 0 <= i < |hosts| ensures Less(hosts[i], last.fqdn) {
        EntryHosts(init, id, hosts[i]);
        var r :| r in init && Contributes(r, id, hosts[i]);
        var k :| 0 <= k < |init| && init[k] == r;
        assert rows[k] == r;
      }
    }
  }

  lemma HostsSorted(rows: seq<Row>, e: SiteRoute)
    requires SortedByName(rows) && e in Group(rows)
    ensures StrictlySorted(e.hosts)
  {
    if e in SiteRoutes(rows, SiteOrder(rows)) {
      SiteRoutesMembers(rows, SiteOrder(rows), e);
      var id :| id in SiteOrder(rows) && SiteEntry(rows, id) == Some(e);
      EntrySorted(rows, id);
    } else {
      RedirectRoutesMembers(rows, e);
    }
  }

  lemma HostHasRow(rows: seq<Row>, e: SiteRoute, h: string, opt: BuildOptions) returns (r: Row)
    requires WellFormed(rows) && e in Group(rows) && h in e.hosts
    ensures r in rows && r.fqdn == h
  {
    MemberMeaning(rows, e, h, opt);
    r :| r in rows && r.fqdn == h;
  }

  // ---- Same tables, same routes -----------------------------------------------------

  /** The hosts of matching routes agree, one way round. */
  lemma HostsCarry(xs: seq<Row>, ys: seq<Row>, e: SiteRoute, f: SiteRoute, r: Row, s: Row, opt: BuildOptions, h: string)
    requires Table(xs) && Table(ys) && SameNames(xs, ys) && SameGrouping(xs, ys)
    requires e in Group(xs) && f in Group(ys) && r in xs && s in ys && r.fqdn == s.fqdn
    requires r.fqdn in e.hosts && s.fqdn in f.hosts && h in e.hosts
    ensures h in f.hosts
  {
    var q := HostHasRow(xs, e, h, opt);
    HostsTogether(xs, e, r, q, opt);
    assert NamedIn(q.fqdn, xs) && NamedIn(q.fqdn, ys);
    var t :| t in ys && t.fqdn == q.fqdn;
    assert RowsTogether(s, t);
    HostsTogether(ys, f, s, t, opt);
  }

  lemma SameSymmetric(xs: seq<Row>, ys: seq<Row>, a: BuildOptions, b: BuildOptions)
    requires SameTables(xs, ys, a, b)
    ensures SameTables(ys, xs, b, a)
  {
  }

  /** Every rendered route of one table is one of the other's. */
  lemma RouteCarries(xs: seq<Row>, ys: seq<Row>, a: BuildOptions, b: BuildOptions, e: SiteRoute) returns (f: SiteRoute)
    requires Table(xs) && Table(ys) && SameTables(xs, ys, a, b) && e in Group(xs)
    requires Guards(Defaulted(a)) == Guards(a) && Guards(Defaulted(b)) == Guards(b)
    ensures f in Group(ys) && Render(f, Defaulted(b)) == Render(e, Defaulted(a))
  {
    GroupDisjoint(xs);
    var h := e.hosts[0];
    var r := HostHasRow(xs, e, h, a);
    assert NamedIn(r.fqdn, xs) && NamedIn(r.fqdn, ys);
    var s :| s in ys && s.fqdn == r.fqdn;
    f := MemberFor(ys, s);
    forall g ensures g in e.hosts <==> g in f.hosts {
      if g in e.hosts { HostsCarry(xs, ys, e, f, r, s, a, g); }
      if g in f.hosts {
        SameSymmetric(xs, ys, a, b);
        HostsCarry(ys, xs, f, e, s, r, b, g);
      }
    }
    HostsSorted(xs, e);
    HostsSorted(ys, f);
    StrictlySortedUnique(e.hosts, f.hosts);
    RouteOfRow(xs, e, r, Defaulted(a));
    RouteOfRow(ys, f, s, Defaulted(b));
    assert ShownAnswer(r, a) == ShownAnswer(s, b);
  }

  lemma SameMultiset(rs: seq<Route>, qs: seq<Route>)
    requires Separated(rs) && Separated(qs) && forall r :: r in rs <==> r in qs
    ensures multiset(rs) == multiset(qs)
  {
    forall r ensures multiset(rs)[r] == multiset(qs)[r] {
      assert r in multiset(rs) <==> r in rs;
      assert r in multiset(qs) <==> r in qs;
    }
  }

  lemma SameRendering(xs: seq<Row>, ys: seq<Row>, a: BuildOptions, b: BuildOptions)
    requires Table(xs) && Table(ys) && SameTables(xs, ys, a, b)
    ensures multiset(RenderAll(Group(xs), Defaulted(a))) == multiset(RenderAll(Group(ys), Defaulted(b)))
  {
    var rs, qs := RenderAll(Group(xs), Defaulted(a)), RenderAll(Group(ys), Defaulted(b));
    DefaultsKeepGuards(a);
    DefaultsKeepGuards(b);
    SameSymmetric(xs, ys, a, b);
    RenderMembers(Group(xs), Defaulted(a));
    RenderMembers(Group(ys), Defaulted(b));
    forall r ensures r in rs <==> r in qs {
      if r in rs {
        var e :| e in Group(xs) && r == Render(e, Defaulted(a));
        var f := RouteCarries(xs, ys, a, b, e);
      }
      if r in qs {
        var e :| e in Group(ys) && r == Render(e, Defaulted(b));
        var f := RouteCarries(ys, xs, b, a, e);
      }
    }
    GroupSeparated(xs, Defaulted(a));
    GroupSeparated(ys, Defaulted(b));
    SameMultiset(rs, qs);
  }

  lemma SettingsOutside(sorted: seq<Route>, base: BuildOptions, s: Settings, t: Settings)
    ensures Assemble(sorted, Defaulted(Opts(base, s))) == Assemble(sorted, Defaulted(Opts(base, t)))
  {
    OutsideGuards(sorted, Defaulted(Opts(base, s)), Defaulted(Opts(base, t)));
  }

  /** Only the guards depend on the firewall switch and the rate limit. */
  lemma OutsideGuards(sorted: seq<Route>, a: BuildOptions, b: BuildOptions)
    requires b == a.(wafEnabled := b.wafEnabled, rateLimitPerMinute := b.rateLimitPerMinute)
    ensures Assemble(sorted, a) == Assemble(sorted, b)
  {
    assert FixedRoutes(a) == FixedRoutes(b) && FixedSubjects(a) == FixedSubjects(b);
    SameTls(Canonical(FixedSubjects(a) + AllHosts(sorted)), a, b);
  }

  lemma SameTls(subjects: seq<string>, a: BuildOptions, b: BuildOptions)
    requires b == a.(wafEnabled := b.wafEnabled, rateLimitPerMinute := b.rateLimitPerMinute)
    ensures TlsApp(subjects, a) == TlsApp(subjects, b)
  {
  }

  lemma SameTablesPublish(xs: seq<Row>, ys: seq<Row>, base: BuildOptions, s: Settings, t: Settings, cfg: Config)
    requires Table(xs) && Table(ys) && SameTables(xs, ys, Opts(base, s), Opts(base, t))
    requires Publishes(xs, Opts(base, s), cfg)
    ensures Publishes(ys, Opts(base, t), cfg)
  {
    SameRendering(xs, ys, Opts(base, s), Opts(base, t));
    var rs := RenderAll(Group(xs), Defaulted(Opts(base, s)));
    var sorted :|
      multiset(sorted) == multiset(rs) && InOrder(sorted) && cfg == Assemble(sorted, Defaulted(Opts(base, s)));
    SettingsOutside(sorted, base, s, t);
  }

  // ---- Same configuration, same tables ----------------------------------------------

  /** The client routes of the configuration are the table's. */
  ghost predicate RoutesOf(clients: seq<Route>, rows: seq<Row>, opt: BuildOptions) {
    forall r {:trigger r in clients} :: r in clients <==> exists e :: e in Group(rows) && r == Render(e, Defaulted(opt))
  }

  lemma RowIsShown(clients: seq<Route>, rows: seq<Row>, opt: BuildOptions, row: Row) returns (r: Route)
    requires WellFormed(rows) && RoutesOf(clients, rows, opt) && row in rows
    ensures r in clients && row.fqdn in r.hosts
  {
    var e := MemberFor(rows, row);
    r := Render(e, Defaulted(opt));
  }

  /** What a client route says about a row whose name it holds. */
  lemma RouteSays(clients: seq<Route>, rows: seq<Row>, opt: BuildOptions, r: Route, row: Row, other: Row)
    requires WellFormed(rows) && RoutesOf(clients, rows, opt) && r in clients
    requires row in rows && other in rows && row.fqdn in r.hosts
    ensures r.handle == ShownAnswer(row, opt)
    ensures other.fqdn in r.hosts <==> RowsTogether(row, other)
  {
    var e :| e in Group(rows) && r == Render(e, Defaulted(opt));
    HostsTogether(rows, e, row, other, Defaulted(opt));
    DefaultsKeepGuards(opt);
  }

  lemma RouteNames(clients: seq<Route>, rows: seq<Row>, opt: BuildOptions, r: Route, h: string)
    requires WellFormed(rows) && RoutesOf(clients, rows, opt) && r in clients && h in r.hosts
    ensures NamedIn(h, rows)
  {
    var e :| e in Group(rows) && r == Render(e, Defaulted(opt));
    var row := HostHasRow(rows, e, h, opt);
  }

  lemma SameClients(clients: seq<Route>, xs: seq<Row>, ys: seq<Row>, a: BuildOptions, b: BuildOptions)
    requires WellFormed(xs) && WellFormed(ys) && RoutesOf(clients, xs, a) && RoutesOf(clients, ys, b)
    ensures SameTables(xs, ys, a, b)
  {
    forall name ensures NamedIn(name, xs) <==> NamedIn(name, ys) {
      if r :| r in xs && r.fqdn == name {
        var route := RowIsShown(clients, xs, a, r);
        RouteNames(clients, ys, b, route, name);
      }
      if r :| r in ys && r.fqdn == name {
        var route := RowIsShown(clients, ys, b, r);
        RouteNames(clients, xs, a, route, name);
      }
    }
    forall r, s | r in xs && s in ys && r.fqdn == s.fqdn ensures ShownAnswer(r, a) == ShownAnswer(s, b) {
      var route := RowIsShown(clients, xs, a, r);
      RouteSays(clients, xs, a, route, r, r);
      RouteSays(clients, ys, b, route, s, s);
    }
    forall r, q, s, t | r in xs && q in xs && s in ys && t in ys && r.fqdn == s.fqdn && q.fqdn == t.fqdn
      ensures RowsTogether(r, q) <==> RowsTogether(s, t)
    {
      var route := RowIsShown(clients, xs, a, r);
      RouteSays(clients, xs, a, route, r, q);
      RouteSays(clients, ys, b, route, s, t);
    }
  }

  lemma PublishedClients(rows: seq<Row>, base: BuildOptions, s: Settings, cfg: Config)
    requires WellFormed(rows) && Publishes(rows, Opts(base, s), cfg)
    ensures RoutesOf(ClientRoutes(base, cfg), rows, Opts(base, s))
  {
    var sorted := SortedRoutes(rows, Opts(base, s), cfg);
    SplitRoutes(base, s, cfg, sorted);
  }

  // ---- Databases --------------------------------------------------------------------

  ghost predicate Matching(db: Db, d: nat, other: Db, e: nat) {
    Visible(db, d) && Visible(other, e) && db.domains[d].fqdn == other.domains[e].fqdn
  }

  ghost predicate ShowsName(db: Db, name: string) { exists d :: Visible(db, d) && db.domains[d].fqdn == name }

  ghost predicate MatchedNames(db: Db, other: Db) {
    forall name :: ShowsName(db, name) <==> ShowsName(other, name)
  }

  /** The guards and the answer of a visible name. */
  function AnswerOf(db: Db, d: nat, base: BuildOptions): seq<Handler>
    requires Visible(db, d)
  {
    ShownAnswer(RowOf(db, d), Opts(base, db.settings))
  }

  ghost predicate MatchedAnswers(db: Db, other: Db, base: BuildOptions) {
    forall d, e :: Matching(db, d, other, e) ==> AnswerOf(db, d, base) == AnswerOf(other, e, base)
  }

  /** Both visible names go into one route. */
  predicate Together(db: Db, c: nat, d: nat)
    requires Visible(db, c) && Visible(db, d)
  {
    RowsTogether(RowOf(db, c), RowOf(db, d))
  }

  ghost predicate MatchedGroups(db: Db, other: Db) {
    forall c, d, e, f :: Matching(db, c, other, e) && Matching(db, d, other, f) ==>
      (Together(db, c, d) <==> Together(other, e, f))
  }

  /** The edge cannot tell the two databases apart: the same names are visible, with the same
      guards and answer, and with the same companions in their route. */
  ghost predicate ShowsSame(db: Db, other: Db, base: BuildOptions) {
    MatchedNames(db, other) && MatchedAnswers(db, other, base) && MatchedGroups(db, other)
  }

  lemma NamedShown(db: Db, xs: seq<Row>, name: string)
    requires IsRoutingTable(db, xs)
    ensures NamedIn(name, xs) <==> ShowsName(db, name)
  {
    if r :| r in xs && r.fqdn == name {
      var d :| Visible(db, d) && r == RowOf(db, d);
    }
    if d :| Visible(db, d) && db.domains[d].fqdn == name { assert RowOf(db, d) in xs; }
  }

  lemma NamesFromTables(db: Db, other: Db, xs: seq<Row>, ys: seq<Row>)
    requires IsRoutingTable(db, xs) && IsRoutingTable(other, ys)
    ensures SameNames(xs, ys) <==> MatchedNames(db, other)
  {
    forall name
      ensures NamedIn(name, xs) <==> ShowsName(db, name)
      ensures NamedIn(name, ys) <==> ShowsName(other, name)
    {
      NamedShown(db, xs, name);
      NamedShown(other, ys, name);
    }
  }

  lemma RowMatch(db: Db, other: Db, xs: seq<Row>, ys: seq<Row>, r: Row, s: Row) returns (d: nat, e: nat)
    requires IsRoutingTable(db, xs) && IsRoutingTable(other, ys) && r in xs && s in ys && r.fqdn == s.fqdn
    ensures Matching(db, d, other, e) && r == RowOf(db, d) && s == RowOf(other, e)
  {
    d :| Visible(db, d) && r == RowOf(db, d);
    e :| Visible(other, e) && s == RowOf(other, e);
  }

  lemma MatchRow(db: Db, other: Db, xs: seq<Row>, ys: seq<Row>, d: nat, e: nat)
    requires IsRoutingTable(db, xs) && IsRoutingTable(other, ys) && Matching(db, d, other, e)
    ensures RowOf(db, d) in xs && RowOf(other, e) in ys && RowOf(db, d).fqdn == RowOf(other, e).fqdn
  {
  }

  lemma AnswersFromTables(db: Db, other: Db, base: BuildOptions, xs: seq<Row>, ys: seq<Row>)
    requires IsRoutingTable(db, xs) && IsRoutingTable(other, ys)
    ensures SameAnswers(xs, ys, Opts(base, db.settings), Opts(base, other.settings))
            <==> MatchedAnswers(db, other, base)
  {
    var a, b := Opts(base, db.settings), Opts(base, other.settings);
    if SameAnswers(xs, ys, a, b) {
      forall d, e | Matching(db, d, other, e) ensures AnswerOf(db, d, base) == AnswerOf(other, e, base) {
        MatchRow(db, other, xs, ys, d, e);
      }
    }
    if MatchedAnswers(db, other, base) {
      forall r, s | r in xs && s in ys && r.fqdn == s.fqdn ensures ShownAnswer(r, a) == ShownAnswer(s, b) {
        var d, e := RowMatch(db, other, xs, ys, r, s);
        assert AnswerOf(db, d, base) == AnswerOf(other, e, base);
      }
    }
  }

  lemma GroupsFromTables(db: Db, other: Db, xs: seq<Row>, ys: seq<Row>)
    requires IsRoutingTable(db, xs) && IsRoutingTable(other, ys)
    ensures SameGrouping(xs, ys) <==> MatchedGroups(db, other)
  {
    if SameGrouping(xs, ys) {
      forall c, d, e, f | Matching(db, c, other, e) && Matching(db, d, other, f)
        ensures Together(db, c, d) <==> Together(other, e, f)
      {
        MatchRow(db, other, xs, ys, c, e);
        MatchRow(db, other, xs, ys, d, f);
      }
    }
    if MatchedGroups(db, other) { GroupsToTables(db, other, xs, ys); }
  }

  lemma GroupsToTables(db: Db, other: Db, xs: seq<Row>, ys: seq<Row>)
    requires IsRoutingTable(db, xs) && IsRoutingTable(other, ys) && MatchedGroups(db, other)
    ensures SameGrouping(xs, ys)
  {
    forall r, q, s, t | r in xs && q in xs && s in ys && t in ys && r.fqdn == s.fqdn && q.fqdn == t.fqdn
      ensures RowsTogether(r, q) <==> RowsTogether(s, t)
    {
      var c, e := RowMatch(db, other, xs, ys, r, s);
      var d, f := RowMatch(db, other, xs, ys, q, t);
      assert Together(db, c, d) <==> Together(other, e, f);
    }
  }

  lemma TablesShow(db: Db, other: Db, base: BuildOptions, xs: seq<Row>, ys: seq<Row>)
    requires IsRoutingTable(db, xs) && IsRoutingTable(other, ys)
    ensures SameTables(xs, ys, Opts(base, db.settings), Opts(base, other.settings)) <==> ShowsSame(db, other, base)
  {
    NamesFromTables(db, other, xs, ys);
    AnswersFromTables(db, other, base, xs, ys);
    GroupsFromTables(db, other, xs, ys);
  }

  // Every valid database has a routing table.

  lemma InsertRow(rows: seq<Row>, r: Row) returns (out: seq<Row>)
    requires SortedByName(rows) && !NamedIn(r.fqdn, rows)
    ensures SortedByName(out) && forall x {:trigger x in out} :: x in out <==> x in rows || x == r
  {
    if rows == [] || Less(r.fqdn, rows[0].fqdn) {
      out := [r] + rows;
      forall i | 0 <= i < |rows| ensures Less(r.fqdn, rows[i].fqdn) {
        if i > 0 { LessTransitive(r.fqdn, rows[0].fqdn, rows[i].fqdn); }
      }
    } else {
      assert rows == [rows[0]] + rows[1..];
      assert rows[0] in rows;
      LessTotal(r.fqdn, rows[0].fqdn);
      forall x | x in rows[1..] ensures x in rows {}
      var rest := InsertRow(rows[1..], r);
      out := [rows[0]] + rest;
      forall i | 0 <= i < |rest| ensures Less(rows[0].fqdn, rest[i].fqdn) {
        assert rest[i] in rest;
        if rest[i] != r {
          var k :| 0 <= k < |rows[1..]| && rows[1..][k] == rest[i];
          assert rows[k + 1] == rest[i];
        }
      }
    }
  }

  lemma TableOf(db: Db, ids: set<nat>) returns (rows: seq<Row>)
    requires ValidDb(db) && forall d :: d in ids ==> Visible(db, d)
    ensures SortedByName(rows)
    ensures forall r {:trigger r in rows} :: r in rows <==> exists d :: d in ids && Visible(db, d) && r == RowOf(db, d)
    decreases ids
  {
    if ids == {} {
      rows := [];
    } else {
      var d :| d in ids;
      var rest := TableOf(db, ids - {d});
      rows := InsertRow(rest, RowOf(db, d));
    }
  }

  lemma TableExists(db: Db) returns (rows: seq<Row>)
    requires ValidDb(db)
    ensures IsRoutingTable(db, rows)
  {
    rows := TableOf(db, set d | d in db.domains && Visible(db, d));
  }

  /** A configuration true to one valid database is true to another exactly when the edge cannot
      tell the two apart. */
  lemma TrueToBoth(db: Db, other: Db, base: BuildOptions, cfg: Config)
    requires ValidDb(db) && ValidDb(other) && Coherent(db, base, cfg)
    ensures Coherent(other, base, cfg) <==> ShowsSame(db, other, base)
  {
    var xs :| IsRoutingTable(db, xs) && Publishes(xs, Opts(base, db.settings), cfg);
    TableWellFormed(db, xs);
    if Coherent(other, base, cfg) {
      var ys :| IsRoutingTable(other, ys) && Publishes(ys, Opts(base, other.settings), cfg);
      TableWellFormed(other, ys);
      PublishedClients(xs, base, db.settings, cfg);
      PublishedClients(ys, base, other.settings, cfg);
      SameClients(ClientRoutes(base, cfg), xs, ys, Opts(base, db.settings), Opts(base, other.settings));
      TablesShow(db, other, base, xs, ys);
    }
    if ShowsSame(db, other, base) {
      var ys := TableExists(other);
      TableWellFormed(other, ys);
      TablesShow(db, other, base, xs, ys);
      SameTablesPublish(xs, ys, base, db.settings, other.settings, cfg);
    }
  }

  // ---- A configuration for every database --------------------------------------------

  lemma ConsInOrder(head: Route, rest: seq<Route>)
    requires InOrder(rest) && forall x :: x in rest ==> !Less(Join(x.hosts, ','), Join(head.hosts, ','))
    ensures InOrder([head] + rest)
  {
    var out := [head] + rest;
    forall i, j | 0 <= i < j < |out| ensures !Less(Join(out[j].hosts, ','), Join(out[i].hosts, ',')) {
      assert out[j] == rest[j - 1];
      if i > 0 { assert out[i] == rest[i - 1]; }
    }
  }

  lemma HeadIsLeast(rs: seq<Route>, r: Route)
    requires InOrder(rs) && rs != [] && !Less(Join(rs[0].hosts, ','), Join(r.hosts, ','))
    ensures forall x :: x in rs ==> !Less(Join(x.hosts, ','), Join(r.hosts, ','))
  {
    forall x | x in rs ensures !Less(Join(x.hosts, ','), Join(r.hosts, ',')) {
      var i :| 0 <= i < |rs| && rs[i] == x;
      if i > 0 { NotLessTransitive(Join(r.hosts, ','), Join(rs[0].hosts, ','), Join(x.hosts, ',')); }
    }
  }

  lemma InsertRoute(rs: seq<Route>, r: Route) returns (out: seq<Route>)
    requires InOrder(rs)
    ensures InOrder(out) && multiset(out) == multiset(rs) + multiset{r}
    ensures forall x :: x in out ==> x in rs || x == r
  {
    if rs == [] {
      out := [r];
    } else if !Less(Join(rs[0].hosts, ','), Join(r.hosts, ',')) {
      out := [r] + rs;
      HeadIsLeast(rs, r);
      ConsInOrder(r, rs);
    } else {
      var head, tail := rs[0], rs[1..];
      assert rs == [head] + tail;
      LessAsymmetric(Join(head.hosts, ','), Join(r.hosts, ','));
      var rest := InsertRoute(tail, r);
      out := [head] + rest;
      forall x | x in rest ensures !Less(Join(x.hosts, ','), Join(head.hosts, ',')) {
        if x in tail {
          var k :| 0 <= k < |tail| && tail[k] == x;
          assert rs[k + 1] == x;
        }
      }
      ConsInOrder(head, rest);
    }
  }

  lemma Arranged(rs: seq<Route>) returns (out: seq<Route>)
    ensures InOrder(out) && multiset(out) == multiset(rs)
  {
    if rs == [] {
      out := [];
    } else {
      var rest := Arranged(rs[1..]);
      out := InsertRoute(rest, rs[0]);
      assert rs == [rs[0]] + rs[1..];
    }
  }

  /** Every valid database has a coherent configuration. */
  lemma CoherentExists(db: Db, base: BuildOptions) returns (cfg: Config)
    requires ValidDb(db)
    ensures Coherent(db, base, cfg)
  {
    var rows := TableExists(db);
    var opt := Opts(base, db.settings);
    var sorted := Arranged(RenderAll(Group(rows), Defaulted(opt)));
    cfg := Assemble(sorted, Defaulted(opt));
    assert Publishes(rows, opt, cfg);
  }

  // ---- Settings ---------------------------------------------------------------------

  lemma SameGuards(a: seq<Handler>, b: seq<Handler>, x: Handler, y: Handler)
    requires a + [x] == b + [y]
    ensures a == b
  {
    assert |a| == |b|;
    assert (a + [x])[..|a|] == a && (b + [y])[..|b|] == b;
  }

  /** Other settings show exactly when the guards they give differ and some name is visible. */
  lemma SettingsShow(db: Db, settings: Settings, base: BuildOptions)
    requires ValidDb(db)
    ensures ShowsSame(db, db.(settings := settings), base)
            <==> Guards(Opts(base, settings)) == Guards(Opts(base, db.settings)) || !exists d :: Visible(db, d)
  {
    var other := db.(settings := settings);
    forall d ensures Visible(db, d) <==> Visible(other, d) {}
    forall name ensures ShowsName(db, name) <==> ShowsName(other, name) {}
    forall d, e | Matching(db, d, other, e) ensures d == e && RowOf(db, d) == RowOf(other, e) {}
    assert MatchedGroups(db, other);
    if MatchedAnswers(db, other, base) && exists d :: Visible(db, d) {
      var d :| Visible(db, d);
      assert Matching(db, d, other, d) && AnswerOf(db, d, base) == AnswerOf(other, d, base);
      SameGuards(Guards(Opts(base, db.settings)), Guards(Opts(base, settings)),
                 RowAnswer(RowOf(db, d), Defaulted(Opts(base, db.settings))),
                 RowAnswer(RowOf(other, d), Defaulted(Opts(base, settings))));
    }
  }

  lemma SettingsExactly(db: Db, settings: Settings, base: BuildOptions, cfg: Config)
    requires ValidDb(db) && Coherent(db, base, cfg)
    ensures Coherent(db.(settings := settings), base, cfg)
            <==> Guards(Opts(base, settings)) == Guards(Opts(base, db.settings)) || !exists d :: Visible(db, d)
  {
    TrueToBoth(db, db.(settings := settings), base, cfg);
    SettingsShow(db, settings, base);
  }

  // ---- Operations and runs ----------------------------------------------------------

  /** Any operation whose sync was refused or never came, with whatever error: the configuration
      stays true to the database exactly when the edge cannot tell what the operation wrote. */
  lemma UnpublishedExactly(db: Db, op: Op, base: BuildOptions, cfg: Config)
    requires ValidDb(db) && Fresh(db, op) && Coherent(db, base, cfg)
    ensures Coherent(Run(db, op).final, base, cfg) <==> ShowsSame(db, Run(db, op).final, base)
  {
    RunValid(db, op);
    TrueToBoth(db, Run(db, op).final, base, cfg);
  }

  /** The site status that an operation writes as its only effect. */
  function StatusWritten(op: Op): Option<(nat, SiteStatus)> {
    match op
    case RestartSite(s, restarted, saved) => if saved then Some((s, if restarted then Running else Failed)) else None
    case StartSite(s, running, saved, _) => if !running && saved then Some((s, Failed)) else None
    case RedeploySite(s, deployed, _, saved, _) => if !deployed && saved then Some((s, Failed)) else None
    case DeleteSite(s, saved, removed, _) => if saved && !removed then Some((s, Deleting)) else None
    case _ => None
  }

  /** Restarts, and failed starts, redeployments and deletions: the edge goes stale exactly when
      the status they leave is exposed. */
  lemma StatusOperations(db: Db, op: Op, base: BuildOptions, cfg: Config)
    requires ValidDb(db) && Coherent(db, base, cfg) && StatusWritten(op).Some? && StatusWritten(op).value.0 in db.sites
    ensures !Run(db, op).published
    ensures Coherent(Run(db, op).final, base, cfg)
            <==> !Exposes(db, StatusWritten(op).value.0, StatusWritten(op).value.1)
  {
    var w := StatusWritten(op).value;
    assert Run(db, op).final == SetStatus(db, w.0, w.1);
    StatusWriteExactly(db, base, cfg, w.0, w.1);
  }

  /** A database of one running site with one name. */
  function OneSite(upstream: string, name: string): Db {
    Db(map[1 := Account(Active, "", 0, 0)], map[1 := Site(1, upstream, Running)],
       map[1 := Domain(1, name, "", true)], Settings(false, 240, 7))
  }

  lemma OneSiteExposes(upstream: string, name: string)
    requires ',' !in name
    ensures ValidDb(OneSite(upstream, name)) && Exposes(OneSite(upstream, name), 1, Failed)
  {
    var db := OneSite(upstream, name);
    assert 1 in db.domains && db.domains[1].site == 1;
    assert HasDomain(db, 1);
  }

  /** After a failed restart of that site the edge still sends its visitors on. */
  lemma RestartGoesStale(base: BuildOptions, upstream: string, name: string) returns (cfg: Config)
    requires ',' !in name
    ensures ValidDb(OneSite(upstream, name)) && Coherent(OneSite(upstream, name), base, cfg)
    ensures !Coherent(Run(OneSite(upstream, name), RestartSite(1, false, true)).final, base, cfg)
  {
    OneSiteExposes(upstream, name);
    cfg := CoherentExists(OneSite(upstream, name), base);
    StatusOperations(OneSite(upstream, name), RestartSite(1, false, true), base, cfg);
  }

  /** Any operations in a row, settled or not. */
  ghost predicate IsAnyRun(states: seq<State>, ops: seq<Op>, base: BuildOptions) {
    |states| == |ops| + 1
    && forall i :: 0 <= i < |ops| ==>
         Fresh(states[i].db, ops[i])
         && Step(states[i].db, states[i].cfg, ops[i], base, states[i + 1].db, states[i + 1].cfg)
  }

  /** The last of the first n steps that published, counted from 1; 0 when none did. */
  function LastPublished(states: seq<State>, ops: seq<Op>, n: nat): (k: nat)
    requires |states| == |ops| + 1 && n <= |ops|
    ensures k <= n
  {
    if n == 0 then 0
    else if Run(states[n - 1].db, ops[n - 1]).published then n
    else LastPublished(states, ops, n - 1)
  }

  lemma {:induction false} SincePublished(states: seq<State>, ops: seq<Op>, base: BuildOptions, n: nat)
    requires IsAnyRun(states, ops, base) && n <= |ops|
    requires ValidDb(states[0].db) && Coherent(states[0].db, base, states[0].cfg)
    ensures var k := LastPublished(states, ops, n);
            && ValidDb(states[n].db) && ValidDb(states[k].db)
            && Coherent(states[k].db, base, states[k].cfg) && states[n].cfg == states[k].cfg
  {
    if n > 0 {
      SincePublished(states, ops, base, n - 1);
      RunValid(states[n - 1].db, ops[n - 1]);
    }
  }

  /** Over any run of any operations, with every kind of failure: the published configuration is
      true to the database exactly when the edge cannot tell it from the one last published. */
  lemma RunsExactly(states: seq<State>, ops: seq<Op>, base: BuildOptions, n: nat)
    requires IsAnyRun(states, ops, base) && n <= |ops|
    requires ValidDb(states[0].db) && Coherent(states[0].db, base, states[0].cfg)
    ensures Coherent(states[n].db, base, states[n].cfg)
            <==> ShowsSame(states[LastPublished(states, ops, n)].db, states[n].db, base)
  {
    SincePublished(states, ops, base, n);
    TrueToBoth(states[LastPublished(states, ops, n)].db, states[n].db, base, states[n].cfg);
  }
}
