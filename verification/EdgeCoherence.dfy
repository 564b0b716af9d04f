/** The published edge configuration as a cache of the database: the lifecycle operations of
    the panel, what each leaves in the database, and when the cache stays true to it. */
module EdgeCoherence {
  import opened Strings
  import opened Wrappers
  import opened CaddyConfig
  import opened EdgeSync

  datatype AccountStatus = Active | Suspended | Terminated
  datatype Account = Account(status: AccountStatus, reason: string, usedMB: int, diskMB: int)
  datatype Site = Site(account: nat, upstream: string, status: SiteStatus)
  datatype Domain = Domain(site: nat, fqdn: string, redirectTo: string, forceHTTPS: bool)
  datatype Settings = Settings(wafEnabled: bool, rateLimitPerMinute: int, retentionDays: int)
  datatype Db = Db(accounts: map<nat, Account>, sites: map<nat, Site>, domains: map<nat, Domain>,
                   settings: Settings)

  // ---- Domain names -----------------------------------------------------------------

  predicate LowerAlnum(c: char) { 'a' <= c <= 'z' || IsDigit(c) }

  predicate IsLabel(s: string) {
    1 <= |s| <= 63 && LowerAlnum(s[0]) && LowerAlnum(s[|s| - 1])
    && forall c :: c in s ==> LowerAlnum(c) || c == '-'
  }

  predicate IsTopLabel(s: string) { |s| >= 2 && forall c :: c in s ==> 'a' <= c <= 'z' }

  predicate AreLabels(labels: seq<string>) {
    |labels| >= 2 && IsTopLabel(labels[|labels| - 1])
    && forall i :: 0 <= i < |labels| - 1 ==> IsLabel(labels[i])
  }

  /** The reFQDN check: an optional `*.`, labels, and a top-level label of letters. */
  predicate IsFqdn(s: string) {
    AreLabels(Split(if HasPrefix(s, "*.") then s[2..] else s, '.'))
  }

  lemma {:induction false} SplitChars(s: string, sep: char, c: char)
    requires c in s && c != sep
    ensures exists p :: p in Split(s, sep) && c in p
    decreases |s|
  {
    match Cut(s, sep)
    case None => assert s in Split(s, sep);
    case Some(p) =>
      if c in p.0 {
        assert p.0 in Split(s, sep);
      } else {
        SplitChars(p.1, sep, c);
        var q :| q in Split(p.1, sep) && c in q;
        assert q in Split(s, sep);
      }
  }

  lemma LabelsCommaFree(labels: seq<string>)
    requires AreLabels(labels)
    ensures forall p :: p in labels ==> ',' !in p
  {
    forall i | 0 <= i < |labels| ensures ',' !in labels[i] {
      assert i < |labels| - 1 ==> IsLabel(labels[i]);
    }
  }

  lemma FqdnCommaFree(s: string)
    requires IsFqdn(s)
    ensures ',' !in s
  {
    var body := if HasPrefix(s, "*.") then s[2..] else s;
    LabelsCommaFree(Split(body, '.'));
    if ',' in body { SplitChars(body, '.', ','); }
    assert s == body || (s == s[..2] + body && s[..2] == "*.");
  }

  // ---- The database -----------------------------------------------------------------

  /** Foreign keys, the UNIQUE constraint on names, and what the name check of every insert gives. */
  ghost predicate ValidDb(db: Db) {
    && (forall s :: s in db.sites ==> db.sites[s].account in db.accounts)
    && (forall d :: d in db.domains ==> db.domains[d].site in db.sites && ',' !in db.domains[d].fqdn)
    && (forall d, e :: d in db.domains && e in db.domains && db.domains[d].fqdn == db.domains[e].fqdn ==> d == e)
  }

  predicate Listed(st: SiteStatus) { st == Running || st == Stopped }

  /** The join and filter of the routing-table query. */
  predicate Visible(db: Db, d: nat) {
    d in db.domains && db.domains[d].site in db.sites
    && var s := db.sites[db.domains[d].site];
       s.account in db.accounts && db.accounts[s.account].status == Active && Listed(s.status)
  }

  function RowOf(db: Db, d: nat): Row
    requires d in db.domains && db.domains[d].site in db.sites
  {
    var m, s := db.domains[d], db.sites[db.domains[d].site];
    Row(m.fqdn, s.upstream, m.redirectTo, m.forceHTTPS, m.site, s.status)
  }

  ghost predicate IsRoutingTable(db: Db, rows: seq<Row>) {
    && (forall i, j :: 0 <= i < j < |rows| ==> Less(rows[i].fqdn, rows[j].fqdn))
    && (forall r {:trigger r in rows} :: r in rows <==> exists d :: Visible(db, d) && r == RowOf(db, d))
  }

  lemma TableWellFormed(db: Db, rows: seq<Row>)
    requires ValidDb(db) && IsRoutingTable(db, rows)
    ensures WellFormed(rows)
  {
    forall i, j | 0 <= i < j < |rows| ensures rows[i].fqdn != rows[j].fqdn {
      LessIrreflexive(rows[i].fqdn);
    }
    forall r | r in rows ensures ',' !in r.fqdn {
      var d :| Visible(db, d) && r == RowOf(db, d);
    }
  }

  function Opts(base: BuildOptions, settings: Settings): BuildOptions {
    base.(wafEnabled := settings.wafEnabled, rateLimitPerMinute := settings.rateLimitPerMinute)
  }

  /** The published configuration is one SyncCaddy would produce from this database. */
  ghost predicate Coherent(db: Db, base: BuildOptions, cfg: Config) {
    exists rows :: IsRoutingTable(db, rows) && Publishes(rows, Opts(base, db.settings), cfg)
  }

  // ---- Publishing is a function of the database -------------------------------------

  lemma TableUnique(db: Db, xs: seq<Row>, ys: seq<Row>)
    requires IsRoutingTable(db, xs) && IsRoutingTable(db, ys)
    ensures xs == ys
  {
    var a, b := seq(|xs|, i requires 0 <= i < |xs| => xs[i].fqdn), seq(|ys|, i requires 0 <= i < |ys| => ys[i].fqdn);
    forall n ensures n in a <==> n in b {
      if n in a {
        var i :| 0 <= i < |a| && a[i] == n;
        assert xs[i] in xs && xs[i] in ys;
        var j :| 0 <= j < |ys| && ys[j] == xs[i];
        assert b[j] == n;
      }
      if n in b {
        var i :| 0 <= i < |b| && b[i] == n;
        assert ys[i] in ys && ys[i] in xs;
        var j :| 0 <= j < |xs| && xs[j] == ys[i];
        assert a[j] == n;
      }
    }
    StrictlySortedUnique(a, b);
    assert |xs| == |a| == |b| == |ys|;
    forall i | 0 <= i < |xs| ensures xs[i] == ys[i] {
      assert xs[i] in xs && xs[i] in ys;
      var j :| 0 <= j < |ys| && ys[j] == xs[i];
      assert ys[i].fqdn == b[i] == a[i] == xs[i].fqdn == ys[j].fqdn;
      LessIrreflexive(ys[i].fqdn);
    }
  }

  /** Repeated syncs of one database state publish the same configuration. */
  lemma SyncIdempotent(db: Db, base: BuildOptions, c: Config, d: Config)
    requires ValidDb(db) && Coherent(db, base, c) && Coherent(db, base, d)
    ensures c == d
  {
    var xs :| IsRoutingTable(db, xs) && Publishes(xs, Opts(base, db.settings), c);
    var ys :| IsRoutingTable(db, ys) && Publishes(ys, Opts(base, db.settings), d);
    TableUnique(db, xs, ys);
    TableWellFormed(db, xs);
    var opt := Opts(base, db.settings);
    var rs := RenderAll(Group(xs), Defaulted(opt));
    GroupSeparated(xs, Defaulted(opt));
    PermutationInvariant(rs, rs, opt, c, d);
  }

  // ---- What a coherent configuration serves -----------------------------------------

  lemma CoherentMeaning(db: Db, base: BuildOptions, cfg: Config, host: string) returns (rows: seq<Row>)
    requires ValidDb(db) && Coherent(db, base, cfg)
    requires forall e :: Visible(db, e) && HostMatches(db.domains[e].fqdn, host) ==> db.domains[e].fqdn == host
    ensures IsRoutingTable(db, rows) && WellFormed(rows)
    ensures Serve(cfg.routes, host) == Intended(rows, Opts(base, db.settings), host)
  {
    rows :| IsRoutingTable(db, rows) && Publishes(rows, Opts(base, db.settings), cfg);
    TableWellFormed(db, rows);
    PublishedMeaning(rows, Opts(base, db.settings), cfg, host);
  }

  lemma CoveringRow(db: Db, rows: seq<Row>, host: string)
    requires IsRoutingTable(db, rows)
    ensures (exists r :: r in rows && HostMatches(r.fqdn, host))
            <==> exists e :: Visible(db, e) && HostMatches(db.domains[e].fqdn, host)
  {
    if r: Row :| r in rows && HostMatches(r.fqdn, host) {
      var e :| Visible(db, e) && r == RowOf(db, e);
      assert db.domains[e].fqdn == r.fqdn;
    }
    if e :| Visible(db, e) && HostMatches(db.domains[e].fqdn, host) {
      var r := RowOf(db, e);
      assert r in rows && r.fqdn == db.domains[e].fqdn;
    }
  }

  lemma SameFixed(base: BuildOptions, settings: Settings, host: string)
    ensures FixedAnswers(Opts(base, settings), host) <==> FixedAnswers(base, host)
  {
  }

  /** A coherent configuration answers for a host exactly when the panel or webmail does or a
      visible name covers it. */
  lemma AnsweredExactly(db: Db, base: BuildOptions, cfg: Config, host: string)
    requires ValidDb(db) && Coherent(db, base, cfg)
    ensures Serve(cfg.routes, host) != []
            <==> FixedAnswers(base, host) || exists e :: Visible(db, e) && HostMatches(db.domains[e].fqdn, host)
  {
    var rows :| IsRoutingTable(db, rows) && Publishes(rows, Opts(base, db.settings), cfg);
    TableWellFormed(db, rows);
    ServedExactly(rows, Opts(base, db.settings), cfg, host);
    SameFixed(base, db.settings, host);
    CoveringRow(db, rows, host);
  }

  /** A name of an account that is not active is served exactly when it is the panel's or webmail's
      or another name, of an active account, covers it. */
  lemma InactiveNotServed(db: Db, base: BuildOptions, cfg: Config, d: nat)
    requires ValidDb(db) && Coherent(db, base, cfg) && d in db.domains
    requires db.accounts[db.sites[db.domains[d].site].account].status != Active
    ensures Serve(cfg.routes, db.domains[d].fqdn) != []
            <==> FixedAnswers(base, db.domains[d].fqdn)
                 || exists e :: Visible(db, e) && db.domains[e].fqdn != db.domains[d].fqdn
                                && HostMatches(db.domains[e].fqdn, db.domains[d].fqdn)
  {
    AnsweredExactly(db, base, cfg, db.domains[d].fqdn);
  }

  /** The query in the words of the schema: domains of running or stopped sites of active accounts. */
  lemma VisibleExactly(db: Db, d: nat)
    ensures Visible(db, d) <==>
              && d in db.domains && db.domains[d].site in db.sites
              && db.sites[db.domains[d].site].account in db.accounts
              && db.accounts[db.sites[db.domains[d].site].account].status == Active
              && db.sites[db.domains[d].site].status in {Running, Stopped}
    ensures Visible(db, d) ==>
              RowOf(db, d) == Row(db.domains[d].fqdn, db.sites[db.domains[d].site].upstream, db.domains[d].redirectTo,
                                  db.domains[d].forceHTTPS, db.domains[d].site, db.sites[db.domains[d].site].status)
  {
  }

  /** What a coherent edge answers for a visible name that no other name covers, from the database
      alone: the stored firewall switch and rate limit, the redirect, the page, or the site. */
  lemma VisitorGets(db: Db, base: BuildOptions, cfg: Config, d: nat) returns (last: Handler)
    requires ValidDb(db) && Coherent(db, base, cfg) && Visible(db, d) && !FixedAnswers(base, db.domains[d].fqdn)
    requires forall e :: Visible(db, e) && HostMatches(db.domains[e].fqdn, db.domains[d].fqdn) ==> e == d
    ensures Guarded(Serve(cfg.routes, db.domains[d].fqdn), db.settings.wafEnabled, db.settings.rateLimitPerMinute,
                    base.corazaDirectives, last)
    ensures Answers(last, db.domains[d].redirectTo, db.sites[db.domains[d].site].status == Running,
                    db.sites[db.domains[d].site].upstream, base.maintenanceMessage)
  {
    var opt := Opts(base, db.settings);
    var rows :| IsRoutingTable(db, rows) && Publishes(rows, opt, cfg);
    TableWellFormed(db, rows);
    SameFixed(base, db.settings, db.domains[d].fqdn);
    forall r: Row | r in rows && HostMatches(r.fqdn, db.domains[d].fqdn) ensures r.fqdn == db.domains[d].fqdn {
      var e :| Visible(db, e) && r == RowOf(db, e);
    }
    assert RowOf(db, d) in rows;
    RowServed(rows, opt, cfg, RowOf(db, d));
    last :| Guarded(Serve(cfg.routes, db.domains[d].fqdn), opt.wafEnabled, opt.rateLimitPerMinute,
                    opt.corazaDirectives, last)
            && Answers(last, db.domains[d].redirectTo, RowOf(db, d).status == Running, RowOf(db, d).upstream,
                       opt.maintenanceMessage);
  }

  // ---- The operations ---------------------------------------------------------------

  datatype DockerState = DockerRunning | DockerExited | DockerMissing | DockerOther

  /** A site to create: the ids of its new rows, and the answers met on the way. The last one is the
      reading back of the site when all is done. */
  datatype NewSite = NewSite(site: nat, account: nat, allowed: bool, dirsReady: bool, domain: nat, name: string,
                             deployed: bool, upstream: string, saved: bool, accepted: bool, fetched: bool)

  /** An operation with the answers of everything outside the database: Docker, the file
      system, which status writes went through, and whether the edge accepted the load. */
  datatype Op =
    | CreateAccount(account: nat, allowed: bool, dirsReady: bool, cleaned: bool, first: Option<NewSite>)
    | Suspend(account: nat, reason: string, listed: bool, wrote: set<nat>, accepted: bool)
    | Unsuspend(account: nat, listed: bool, started: set<nat>, wrote: set<nat>, accepted: bool)
    | Terminate(account: nat, accepted: bool)
    | CreateSite(req: NewSite)
    | StartSite(site: nat, running: bool, saved: bool, accepted: bool)
    | StopSite(site: nat, stopped: bool, accepted: bool)
    | RedeploySite(site: nat, deployed: bool, upstream: string, saved: bool, accepted: bool)
    | RestartSite(site: nat, restarted: bool, saved: bool)
    | DeleteSite(site: nat, saved: bool, removed: bool, accepted: bool)
    | AddDomain(domain: nat, site: nat, name: string, redirectTo: string, allowed: bool, accepted: bool)
    | RemoveDomain(domain: nat, accepted: bool)
    | Reconcile(states: map<nat, DockerState>, wrote: set<nat>, accepted: bool)
    | UpdateSettings(settings: Settings, accepted: bool, reverted: bool)
    | Meter(account: nat, usedMB: int, diskMB: int)

  /** The database left behind, whether an accepted load published it, and the reported result. */
  datatype Outcome = Outcome(final: Db, published: bool, ok: bool)

  function SetStatuses(db: Db, upd: map<nat, SiteStatus>): Db {
    db.(sites := map s | s in db.sites :: if s in upd then db.sites[s].(status := upd[s]) else db.sites[s])
  }

  function SetStatus(db: Db, id: nat, st: SiteStatus): Db { SetStatuses(db, map[id := st]) }

  /** A status write whose error the code ignores. */
  function Mark(db: Db, id: nat, st: SiteStatus, saved: bool): Db {
    if saved then SetStatus(db, id, st) else db
  }

  function SetAccount(db: Db, a: nat, st: AccountStatus, reason: string): Db
    requires a in db.accounts
  {
    db.(accounts := db.accounts[a := db.accounts[a].(status := st, reason := reason)])
  }

  function SitesOf(db: Db, a: nat): set<nat> { set s | s in db.sites && db.sites[s].account == a }

  /** DELETE with the cascades from sites to domains. */
  function DropSites(db: Db, gone: set<nat>): Db {
    db.(sites := map s | s in db.sites && s !in gone :: db.sites[s],
        domains := map d | d in db.domains && db.domains[d].site !in gone :: db.domains[d])
  }

  function DropAccount(db: Db, a: nat): Db {
    var rest := DropSites(db, SitesOf(db, a));
    rest.(accounts := map x | x in db.accounts && x != a :: db.accounts[x])
  }

  predicate Taken(db: Db, name: string) { exists d :: d in db.domains && db.domains[d].fqdn == name }

  function Want(state: DockerState, current: SiteStatus): SiteStatus {
    match state
    case DockerRunning => Running
    case DockerExited => Stopped
    case DockerMissing => Failed
    case DockerOther => current
  }

  predicate Drifted(db: Db, states: map<nat, DockerState>, s: nat) {
    s in db.sites && db.sites[s].status != Provisioning && db.sites[s].status != Deleting
    && s in states && Want(states[s], db.sites[s].status) != db.sites[s].status
  }

  /** The status writes that go through for the drifted sites among `visited`. */
  function Corrections(db: Db, states: map<nat, DockerState>, wrote: set<nat>, visited: set<nat>)
    : map<nat, SiteStatus>
  {
    map s | s in visited && s in wrote && Drifted(db, states, s) :: Want(states[s], db.sites[s].status)
  }

  function Unsynced(db: Db, ok: bool): Outcome { Outcome(db, false, ok) }
  function Synced(db: Db, accepted: bool): Outcome { Outcome(db, accepted, accepted) }

  function NewAccount(db: Db, a: nat): Db { db.(accounts := db.accounts[a := Account(Active, "", 0, 0)]) }

  function AddSite(db: Db, n: NewSite): Db {
    db.(sites := db.sites[n.site := Site(n.account, "", Provisioning)])
  }

  function AddFirstDomain(db: Db, n: NewSite): Db {
    if n.name == "" then db else db.(domains := db.domains[n.domain := Domain(n.site, n.name, "", true)])
  }

  function SiteUp(db: Db, n: NewSite): Db {
    db.(sites := db.sites[n.site := Site(n.account, n.upstream, Running)])
  }

  predicate NameRefused(db: Db, n: NewSite) { n.name != "" && (!IsFqdn(n.name) || Taken(db, n.name)) }

  /** The creation gets as far as the sync. */
  predicate Deployed(db: Db, n: NewSite) {
    n.allowed && n.account in db.accounts && n.dirsReady && !NameRefused(db, n) && n.deployed
  }

  function RunCreateSite(db: Db, n: NewSite): Outcome {
    if !n.allowed || n.account !in db.accounts then Unsynced(db, false)
    else
      var made := AddSite(db, n);
      if !n.dirsReady then Unsynced(Mark(made, n.site, Failed, n.saved), false)
      else if NameRefused(made, n) then Unsynced(made, false)
      else
        var named := AddFirstDomain(made, n);
        if !n.deployed then Unsynced(Mark(named, n.site, Failed, n.saved), false)
        else Outcome(SiteUp(named, n), n.accepted, n.fetched)
  }

  /** The first site's failure is only logged. */
  function RunCreateAccount(db: Db, op: Op): Outcome
    requires op.CreateAccount?
  {
    if !op.allowed then Unsynced(db, false)
    else
      var made := NewAccount(db, op.account);
      if !op.dirsReady then Unsynced(if op.cleaned then DropAccount(made, op.account) else made, false)
      else match op.first
        case None => Unsynced(made, true)
        case Some(n) =>
          var o := RunCreateSite(made, n.(account := op.account));
          Outcome(o.final, o.published, true)
  }

  function Run(db: Db, op: Op): Outcome {
    match op
    case CreateAccount(_, _, _, _, _) => RunCreateAccount(db, op)
    case Suspend(a, reason, listed, wrote, accepted) =>
      if a !in db.accounts then Unsynced(db, false)
      else
        var marked := SetAccount(db, a, Suspended, reason);
        if !listed then Unsynced(marked, false)
        else Synced(SetStatuses(marked, map s | s in SitesOf(db, a) && s in wrote :: Stopped), accepted)
    case Unsuspend(a, listed, started, wrote, accepted) =>
      if a !in db.accounts then Unsynced(db, false)
      else
        var marked := SetAccount(db, a, Active, "");
        if !listed then Unsynced(marked, false)
        else
          Synced(SetStatuses(marked, map s | s in SitesOf(db, a) && s in wrote
                                     :: if s in started then Running else Failed), accepted)
    case Terminate(a, accepted) =>
      if a !in db.accounts then Unsynced(db, false) else Synced(DropAccount(db, a), accepted)
    case CreateSite(n) => RunCreateSite(db, n)
    case StartSite(s, started, saved, accepted) =>
      if s !in db.sites then Unsynced(db, false)
      else if !started then Unsynced(Mark(db, s, Failed, saved), false)
      else if !saved then Unsynced(db, false)
      else Synced(SetStatus(db, s, Running), accepted)
    case StopSite(s, stopped, accepted) =>
      if s !in db.sites || !stopped then Unsynced(db, false) else Synced(SetStatus(db, s, Stopped), accepted)
    case RedeploySite(s, deployed, upstream, saved, accepted) =>
      if s !in db.sites then Unsynced(db, false)
      else if !deployed then Unsynced(Mark(db, s, Failed, saved), false)
      else Synced(db.(sites := db.sites[s := Site(db.sites[s].account, upstream, Running)]), accepted)
    case RestartSite(s, restarted, saved) =>
      if s !in db.sites then Unsynced(db, false)
      else Unsynced(Mark(db, s, if restarted then Running else Failed, saved), restarted && saved)
    case DeleteSite(s, saved, removed, accepted) =>
      if s !in db.sites then Unsynced(db, false)
      else if !removed then Unsynced(Mark(db, s, Deleting, saved), false)
      else Synced(DropSites(db, {s}), accepted)
    case AddDomain(d, s, name, redirectTo, allowed, accepted) =>
      if !IsFqdn(name) || s !in db.sites || !allowed || Taken(db, name) then Unsynced(db, false)
      else Synced(db.(domains := db.domains[d := Domain(s, name, redirectTo, true)]), accepted)
    case RemoveDomain(d, accepted) =>
      if d !in db.domains then Unsynced(db, false)
      else Synced(db.(domains := map x | x in db.domains && x != d :: db.domains[x]), accepted)
    case Reconcile(states, wrote, accepted) =>
      if forall s :: s in db.sites ==> !Drifted(db, states, s) then Unsynced(db, true)
      else Synced(SetStatuses(db, Corrections(db, states, wrote, db.sites.Keys)), accepted)
    case UpdateSettings(settings, accepted, reverted) =>
      if settings.rateLimitPerMinute < 10 || settings.retentionDays < 1 then Unsynced(db, false)
      else if accepted || !reverted then Synced(db.(settings := settings), accepted)
      else Unsynced(db, false)
    case Meter(a, used, disk) =>
      if a !in db.accounts then Unsynced(db, true)
      else Unsynced(db.(accounts := db.accounts[a := db.accounts[a].(usedMB := used, diskMB := disk)]), true)
  }

  predicate FreshSite(db: Db, n: NewSite) { n.site !in db.sites && n.domain !in db.domains }

  /** The database gives new rows new ids. */
  ghost predicate Fresh(db: Db, op: Op) {
    && (op.CreateAccount? ==> op.account !in db.accounts && (op.first.Some? ==> FreshSite(db, op.first.value)))
    && (op.CreateSite? ==> FreshSite(db, op.req))
    && (op.AddDomain? ==> op.domain !in db.domains)
  }

  lemma StatusesValid(db: Db, upd: map<nat, SiteStatus>)
    requires ValidDb(db)
    ensures ValidDb(SetStatuses(db, upd))
  {
  }

  lemma DropValid(db: Db, gone: set<nat>)
    requires ValidDb(db)
    ensures ValidDb(DropSites(db, gone))
  {
  }

  lemma DropAccountValid(db: Db, a: nat)
    requires ValidDb(db)
    ensures ValidDb(DropAccount(db, a))
  {
    DropValid(db, SitesOf(db, a));
  }

  lemma SiteWriteValid(db: Db, id: nat, site: Site)
    requires ValidDb(db) && site.account in db.accounts
    ensures ValidDb(db.(sites := db.sites[id := site]))
  {
  }

  lemma DomainWriteValid(db: Db, id: nat, domain: Domain)
    requires ValidDb(db) && id !in db.domains && domain.site in db.sites
    requires ',' !in domain.fqdn && !Taken(db, domain.fqdn)
    ensures ValidDb(db.(domains := db.domains[id := domain]))
  {
  }

  lemma CreateSiteValid(db: Db, n: NewSite)
    requires ValidDb(db) && FreshSite(db, n)
    ensures ValidDb(RunCreateSite(db, n).final)
  {
    if n.allowed && n.account in db.accounts {
      var made := AddSite(db, n);
      SiteWriteValid(db, n.site, made.sites[n.site]);
      StatusesValid(made, map[n.site := Failed]);
      if !NameRefused(made, n) {
        if n.name != "" {
          FqdnCommaFree(n.name);
          DomainWriteValid(made, n.domain, Domain(n.site, n.name, "", true));
        }
        var named := AddFirstDomain(made, n);
        StatusesValid(named, map[n.site := Failed]);
        SiteWriteValid(named, n.site, Site(n.account, n.upstream, Running));
      }
    }
  }

  lemma NewAccountValid(db: Db, a: nat)
    requires ValidDb(db)
    ensures ValidDb(NewAccount(db, a))
  {
  }

  lemma CreateAccountValid(db: Db, op: Op)
    requires ValidDb(db) && Fresh(db, op) && op.CreateAccount?
    ensures ValidDb(RunCreateAccount(db, op).final)
  {
    var made := NewAccount(db, op.account);
    NewAccountValid(db, op.account);
    DropAccountValid(made, op.account);
    if op.first.Some? { CreateSiteValid(made, op.first.value.(account := op.account)); }
  }

  lemma AccountOpsValid(db: Db, op: Op)
    requires ValidDb(db) && (op.Suspend? || op.Unsuspend? || op.Terminate?)
    ensures ValidDb(Run(db, op).final)
  {
    match op
    case Suspend(a, reason, _, wrote, _) =>
      if a in db.accounts {
        StatusesValid(SetAccount(db, a, Suspended, reason), map s | s in SitesOf(db, a) && s in wrote :: Stopped);
      }
    case Unsuspend(a, _, started, wrote, _) =>
      if a in db.accounts {
        StatusesValid(SetAccount(db, a, Active, ""),
                      map s | s in SitesOf(db, a) && s in wrote :: if s in started then Running else Failed);
      }
    case Terminate(a, _) => DropAccountValid(db, a);
    case _ =>
  }

  lemma SiteOpsValid(db: Db, op: Op)
    requires ValidDb(db)
    requires op.StartSite? || op.StopSite? || op.RedeploySite? || op.RestartSite? || op.DeleteSite?
    ensures ValidDb(Run(db, op).final)
  {
    match op
    case StartSite(s, running, _, _) => StatusesValid(db, map[s := if running then Running else Failed]);
    case StopSite(s, _, _) => StatusesValid(db, map[s := Stopped]);
    case RedeploySite(s, deployed, upstream, _, _) =>
      if !deployed {
        StatusesValid(db, map[s := Failed]);
      } else if s in db.sites {
        SiteWriteValid(db, s, Site(db.sites[s].account, upstream, Running));
      }
    case RestartSite(s, restarted, _) => StatusesValid(db, map[s := if restarted then Running else Failed]);
    case DeleteSite(s, _, removed, _) =>
      if removed { DropValid(db, {s}); } else { StatusesValid(db, map[s := Deleting]); }
    case _ =>
  }

  lemma RunValid(db: Db, op: Op)
    requires ValidDb(db) && Fresh(db, op)
    ensures ValidDb(Run(db, op).final)
  {
    match op
    case CreateAccount(_, _, _, _, _) => CreateAccountValid(db, op);
    case CreateSite(n) => CreateSiteValid(db, n);
    case Suspend(_, _, _, _, _) => AccountOpsValid(db, op);
    case Unsuspend(_, _, _, _, _) => AccountOpsValid(db, op);
    case Terminate(_, _) => AccountOpsValid(db, op);
    case StartSite(_, _, _, _) => SiteOpsValid(db, op);
    case StopSite(_, _, _) => SiteOpsValid(db, op);
    case RedeploySite(_, _, _, _, _) => SiteOpsValid(db, op);
    case RestartSite(_, _, _) => SiteOpsValid(db, op);
    case DeleteSite(_, _, _, _) => SiteOpsValid(db, op);
    case Reconcile(states, wrote, _) =>
      StatusesValid(db, Corrections(db, states, wrote, db.sites.Keys));
    case AddDomain(d, s, name, redirectTo, _, _) =>
      if IsFqdn(name) && s in db.sites && !Taken(db, name) {
        FqdnCommaFree(name);
        DomainWriteValid(db, d, Domain(s, name, redirectTo, true));
      }
    case _ =>
  }

  // ---- Which steps keep the cache true ----------------------------------------------

  /** Nothing the edge shows differs between the two databases. */
  ghost predicate SameView(db: Db, other: Db) {
    && db.settings.(retentionDays := 0) == other.settings.(retentionDays := 0)
    && (forall d {:trigger Visible(db, d)} {:trigger Visible(other, d)} :: Visible(db, d) <==> Visible(other, d))
    && (forall d {:trigger Visible(db, d)} :: Visible(db, d) ==> RowOf(db, d) == RowOf(other, d))
  }

  lemma SameViewCoherent(db: Db, other: Db, base: BuildOptions, cfg: Config)
    requires SameView(db, other) && Coherent(db, base, cfg)
    ensures Coherent(other, base, cfg)
  {
    var rows :| IsRoutingTable(db, rows) && Publishes(rows, Opts(base, db.settings), cfg);
    assert IsRoutingTable(other, rows);
    assert Opts(base, db.settings) == Opts(base, other.settings);
  }

  ghost predicate Step(db: Db, cfg: Config, op: Op, base: BuildOptions, db': Db, cfg': Config) {
    var o := Run(db, op);
    db' == o.final && if o.published then Coherent(db', base, cfg') else cfg' == cfg
  }

  /** Success as the caller sees it, except that a creation only logs a refused load; error returns
      of a creation before its sync, a failed reading back after it, and a settings change that was
      refused and rolled back count as well. RestartSite never syncs. */
  predicate Settled(db: Db, op: Op) {
    match op
    case RestartSite(_, _, _) => false
    case CreateAccount(a, allowed, dirsReady, _, first) =>
      allowed && dirsReady && first.Some? && Deployed(NewAccount(db, a), first.value.(account := a))
      ==> first.value.accepted
    case CreateSite(n) => Deployed(db, n) ==> n.accepted
    case UpdateSettings(_, accepted, reverted) => accepted || reverted
    case _ => Run(db, op).ok
  }

  lemma SameViewChain(a: Db, b: Db, c: Db)
    requires SameView(a, b) && SameView(b, c)
    ensures SameView(a, c)
  {
  }

  lemma AddSiteHidden(db: Db, n: NewSite)
    requires ValidDb(db) && FreshSite(db, n)
    ensures SameView(db, AddSite(db, n))
  {
  }

  lemma FirstDomainHidden(made: Db, n: NewSite)
    requires n.domain !in made.domains && n.site in made.sites && !Listed(made.sites[n.site].status)
    ensures SameView(made, AddFirstDomain(made, n))
  {
  }

  lemma FailedHidden(db: Db, id: nat)
    requires id in db.sites && !Listed(db.sites[id].status)
    ensures SameView(db, SetStatus(db, id, Failed))
  {
  }

  lemma NamedHidden(db: Db, n: NewSite)
    requires ValidDb(db) && FreshSite(db, n)
    ensures SameView(db, AddFirstDomain(AddSite(db, n), n))
  {
    AddSiteHidden(db, n);
    FirstDomainHidden(AddSite(db, n), n);
    SameViewChain(db, AddSite(db, n), AddFirstDomain(AddSite(db, n), n));
  }

  lemma SameRefusal(db: Db, n: NewSite)
    ensures NameRefused(AddSite(db, n), n) <==> NameRefused(db, n)
  {
  }

  /** A site that is still being created shows nothing at the edge, wherever its creation stops. */
  lemma CreateSiteHidden(db: Db, n: NewSite)
    requires ValidDb(db) && FreshSite(db, n) && !Deployed(db, n)
    ensures SameView(db, RunCreateSite(db, n).final)
    ensures !RunCreateSite(db, n).ok && !RunCreateSite(db, n).published
  {
    var made, named := AddSite(db, n), AddFirstDomain(AddSite(db, n), n);
    SameRefusal(db, n);
    AddSiteHidden(db, n);
    NamedHidden(db, n);
    FailedHidden(made, n.site);
    FailedHidden(named, n.site);
    SameViewChain(db, made, SetStatus(made, n.site, Failed));
    SameViewChain(db, named, SetStatus(named, n.site, Failed));
  }

  lemma CreateAccountHidden(db: Db, op: Op)
    requires ValidDb(db) && Fresh(db, op) && op.CreateAccount?
    requires Settled(db, op) && !Run(db, op).published
    ensures SameView(db, Run(db, op).final)
  {
    var made := NewAccount(db, op.account);
    NewAccountValid(db, op.account);
    AccountsHidden(db, op.account, made.accounts[op.account]);
    DropNewAccount(db, op.account);
    if op.allowed && op.dirsReady && op.first.Some? {
      var n := op.first.value.(account := op.account);
      SameRefusal(made, n);
      CreateSiteHidden(made, n);
      SameViewChain(db, made, RunCreateSite(made, n).final);
    }
  }

  lemma DropNewAccount(db: Db, a: nat)
    requires ValidDb(db) && a !in db.accounts
    ensures DropAccount(NewAccount(db, a), a) == db
  {
    assert SitesOf(NewAccount(db, a), a) == {};
  }

  lemma AccountsHidden(db: Db, a: nat, account: Account)
    requires ValidDb(db) && (a in db.accounts ==> account.status == db.accounts[a].status)
    ensures SameView(db, db.(accounts := db.accounts[a := account]))
  {
  }

  lemma SettledHidden(db: Db, op: Op)
    requires ValidDb(db) && Fresh(db, op) && Settled(db, op) && !Run(db, op).published
    ensures SameView(db, Run(db, op).final)
  {
    match op
    case CreateSite(n) =>
      SameRefusal(db, n);
      CreateSiteHidden(db, n);
    case CreateAccount(_, _, _, _, _) => CreateAccountHidden(db, op);
    case Meter(a, used, disk) =>
      if a in db.accounts { AccountsHidden(db, a, db.accounts[a].(usedMB := used, diskMB := disk)); }
    case _ =>
  }

  /** Every settled operation leaves the published configuration true to the database. */
  lemma StepKeepsCoherence(db: Db, cfg: Config, op: Op, base: BuildOptions, db': Db, cfg': Config)
    requires ValidDb(db) && Fresh(db, op) && Coherent(db, base, cfg)
    requires Step(db, cfg, op, base, db', cfg') && Settled(db, op)
    ensures ValidDb(db') && Coherent(db', base, cfg')
  {
    RunValid(db, op);
    if !Run(db, op).published {
      SettledHidden(db, op);
      SameViewCoherent(db, db', base, cfg);
    }
  }

  datatype State = State(db: Db, cfg: Config)

  ghost predicate IsRun(states: seq<State>, ops: seq<Op>, base: BuildOptions) {
    |states| == |ops| + 1
    && forall i :: 0 <= i < |ops| ==>
         Fresh(states[i].db, ops[i]) && Settled(states[i].db, ops[i])
         && Step(states[i].db, states[i].cfg, ops[i], base, states[i + 1].db, states[i + 1].cfg)
  }

  lemma {:induction false} RunsKeepCoherence(states: seq<State>, ops: seq<Op>, base: BuildOptions, n: nat)
    requires IsRun(states, ops, base) && n <= |ops|
    requires ValidDb(states[0].db) && Coherent(states[0].db, base, states[0].cfg)
    ensures ValidDb(states[n].db) && Coherent(states[n].db, base, states[n].cfg)
  {
    if n > 0 {
      RunsKeepCoherence(states, ops, base, n - 1);
      var s, t := states[n - 1], states[n];
      StepKeepsCoherence(s.db, s.cfg, ops[n - 1], base, t.db, t.cfg);
    }
  }

  // ---- A status write without a sync: exactly when the cache goes stale -------------

  ghost function ClientRoutes(base: BuildOptions, cfg: Config): seq<Route> {
    if |FixedRoutes(base)| <= |cfg.routes| then cfg.routes[|FixedRoutes(base)|..] else []
  }

  lemma CoherentClients(db: Db, base: BuildOptions, cfg: Config) returns (rows: seq<Row>)
    requires ValidDb(db) && Coherent(db, base, cfg)
    ensures IsRoutingTable(db, rows) && WellFormed(rows)
    ensures forall r {:trigger r in ClientRoutes(base, cfg)} ::
              r in ClientRoutes(base, cfg)
              <==> exists e :: e in Group(rows) && r == Render(e, Defaulted(Opts(base, db.settings)))
  {
    rows :| IsRoutingTable(db, rows) && Publishes(rows, Opts(base, db.settings), cfg);
    TableWellFormed(db, rows);
    var sorted := SortedRoutes(rows, Opts(base, db.settings), cfg);
    SplitRoutes(base, db.settings, cfg, sorted);
  }

  lemma SplitRoutes(base: BuildOptions, settings: Settings, cfg: Config, sorted: seq<Route>)
    requires cfg.routes == FixedRoutes(Opts(base, settings)) + sorted
    ensures ClientRoutes(base, cfg) == sorted
  {
    assert FixedRoutes(Opts(base, settings)) == FixedRoutes(base);
  }

  lemma PublishedNames(db: Db, base: BuildOptions, cfg: Config, f: string)
    requires ValidDb(db) && Coherent(db, base, cfg)
    ensures (exists r :: r in ClientRoutes(base, cfg) && f in r.hosts)
            <==> exists d :: Visible(db, d) && db.domains[d].fqdn == f
  {
    var opt := Defaulted(Opts(base, db.settings));
    var rows := CoherentClients(db, base, cfg);
    if r :| r in ClientRoutes(base, cfg) && f in r.hosts {
      var e :| e in Group(rows) && r == Render(e, opt);
      MemberMeaning(rows, e, f, opt);
      var row :| row in rows && row.fqdn == f;
      var d :| Visible(db, d) && row == RowOf(db, d);
    }
    if d :| Visible(db, d) && db.domains[d].fqdn == f {
      var e := MemberFor(rows, RowOf(db, d));
      assert Render(e, opt) in ClientRoutes(base, cfg) && f in Render(e, opt).hosts;
    }
  }

  lemma PublishedAnswer(db: Db, base: BuildOptions, cfg: Config, d: nat)
    requires ValidDb(db) && Coherent(db, base, cfg) && Visible(db, d)
    ensures forall r :: r in ClientRoutes(base, cfg) && db.domains[d].fqdn in r.hosts ==>
              r.handle == Guards(Opts(base, db.settings))
                          + [RowAnswer(RowOf(db, d), Defaulted(Opts(base, db.settings)))]
  {
    var opt := Defaulted(Opts(base, db.settings));
    var rows := CoherentClients(db, base, cfg);
    forall r | r in ClientRoutes(base, cfg) && db.domains[d].fqdn in r.hosts
      ensures r.handle == Guards(opt) + [RowAnswer(RowOf(db, d), opt)]
    {
      var e :| e in Group(rows) && r == Render(e, opt);
      MemberMeaning(rows, e, db.domains[d].fqdn, opt);
      var row :| row in rows && row.fqdn == db.domains[d].fqdn && RowAnswer(row, opt) == Answer(e, opt);
      assert RowOf(db, d) in rows;
      SameRow(rows, row, RowOf(db, d));
    }
  }

  ghost predicate HasDomain(db: Db, id: nat) { exists d :: d in db.domains && db.domains[d].site == id }

  ghost predicate HasProxiedDomain(db: Db, id: nat) {
    exists d :: d in db.domains && db.domains[d].site == id && db.domains[d].redirectTo == ""
  }

  /** The edge shows the difference when site `id` moves to status `st`. */
  ghost predicate Exposes(db: Db, id: nat, st: SiteStatus)
    requires ValidDb(db) && id in db.sites
  {
    var s := db.sites[id];
    db.accounts[s.account].status == Active
    && ((Listed(s.status) != Listed(st) && HasDomain(db, id))
        || (Listed(s.status) && Listed(st) && s.status != st && s.upstream != "" && HasProxiedDomain(db, id)))
  }

  /** One configuration cannot be true to two databases that show different names. */
  lemma SharedNames(db: Db, other: Db, base: BuildOptions, cfg: Config, d: nat)
    requires ValidDb(db) && ValidDb(other)
    requires Coherent(db, base, cfg) && Coherent(other, base, cfg)
    requires Visible(db, d)
    ensures exists e :: Visible(other, e) && other.domains[e].fqdn == db.domains[d].fqdn
  {
    PublishedNames(db, base, cfg, db.domains[d].fqdn);
    PublishedNames(other, base, cfg, db.domains[d].fqdn);
  }

  lemma SameLast<T>(xs: seq<T>, x: T, y: T)
    requires xs + [x] == xs + [y]
    ensures x == y
  {
    assert (xs + [x])[|xs|] == (xs + [y])[|xs|];
  }

  lemma SharedAnswers(db: Db, other: Db, base: BuildOptions, cfg: Config, d: nat)
    requires ValidDb(db) && ValidDb(other) && db.settings == other.settings
    requires Coherent(db, base, cfg) && Coherent(other, base, cfg)
    requires Visible(db, d) && Visible(other, d) && db.domains[d].fqdn == other.domains[d].fqdn
    ensures RowAnswer(RowOf(db, d), Defaulted(Opts(base, db.settings)))
            == RowAnswer(RowOf(other, d), Defaulted(Opts(base, db.settings)))
  {
    PublishedNames(db, base, cfg, db.domains[d].fqdn);
    var r :| r in ClientRoutes(base, cfg) && db.domains[d].fqdn in r.hosts;
    PublishedAnswer(db, base, cfg, d);
    PublishedAnswer(other, base, cfg, d);
    SameLast(Guards(Opts(base, db.settings)), RowAnswer(RowOf(db, d), Defaulted(Opts(base, db.settings))),
             RowAnswer(RowOf(other, d), Defaulted(Opts(base, db.settings))));
  }

  lemma StatusVisible(db: Db, id: nat, st: SiteStatus, d: nat)
    requires ValidDb(db) && id in db.sites && d in db.domains && db.domains[d].site == id
    requires db.accounts[db.sites[id].account].status == Active
    ensures SetStatus(db, id, st).domains == db.domains && ValidDb(SetStatus(db, id, st))
    ensures Visible(db, d) <==> Listed(db.sites[id].status)
    ensures Visible(SetStatus(db, id, st), d) <==> Listed(st)
    ensures RowOf(SetStatus(db, id, st), d) == RowOf(db, d).(status := st)
  {
    StatusesValid(db, map[id := st]);
  }

  lemma ExposedGoesStale(db: Db, base: BuildOptions, cfg: Config, id: nat, st: SiteStatus)
    requires ValidDb(db) && id in db.sites && Coherent(db, base, cfg) && Exposes(db, id, st)
    ensures !Coherent(SetStatus(db, id, st), base, cfg)
  {
    var other := SetStatus(db, id, st);
    var listedChanges := Listed(db.sites[id].status) != Listed(st);
    var d :| d in db.domains && db.domains[d].site == id && (listedChanges || db.domains[d].redirectTo == "");
    StatusVisible(db, id, st, d);
    if Coherent(other, base, cfg) {
      if !listedChanges {
        SharedAnswers(db, other, base, cfg, d);
      } else if Visible(db, d) {
        SharedNames(db, other, base, cfg, d);
      } else {
        SharedNames(other, db, base, cfg, d);
      }
    }
  }

  // A flip between running and stopped that no proxied name depends on renders the same.

  function Restatus(rows: seq<Row>, id: nat, st: SiteStatus): (out: seq<Row>)
    ensures |out| == |rows|
    ensures forall i :: 0 <= i < |rows| ==>
              out[i] == if rows[i].siteId == id then rows[i].(status := st) else rows[i]
  {
    seq(|rows|, i requires 0 <= i < |rows| => if rows[i].siteId == id then rows[i].(status := st) else rows[i])
  }

  lemma {:induction false} RestatusOrder(rows: seq<Row>, id: nat, st: SiteStatus)
    ensures SiteOrder(Restatus(rows, id, st)) == SiteOrder(rows)
    ensures RedirectRoutes(Restatus(rows, id, st)) == RedirectRoutes(rows)
  {
    if rows != [] {
      RestatusOrder(rows[..|rows| - 1], id, st);
      assert Restatus(rows, id, st)[..|rows| - 1] == Restatus(rows[..|rows| - 1], id, st);
    }
  }

  lemma {:induction false} RestatusEntry(rows: seq<Row>, id: nat, st: SiteStatus, k: nat)
    ensures SiteEntry(Restatus(rows, id, st), k).Some? <==> SiteEntry(rows, k).Some?
    ensures SiteEntry(rows, k).Some? ==>
              var e, f := SiteEntry(rows, k).value, SiteEntry(Restatus(rows, id, st), k).value;
              f == e.(offline := f.offline) && (k != id ==> f == e)
  {
    if rows != [] {
      RestatusEntry(rows[..|rows| - 1], id, st, k);
      assert Restatus(rows, id, st)[..|rows| - 1] == Restatus(rows[..|rows| - 1], id, st);
    }
  }

  ghost predicate Muted(rows: seq<Row>, id: nat) {
    forall r :: r in rows && r.siteId == id ==> r.redirectTo != "" || r.upstream == ""
  }

  lemma RestatusRender(rows: seq<Row>, id: nat, st: SiteStatus, k: nat, opt: BuildOptions)
    requires Consistent(rows) && Muted(rows, id) && SiteEntry(rows, k).Some?
    requires SiteEntry(rows, k).value.hosts != []
    ensures SiteEntry(Restatus(rows, id, st), k).Some?
    ensures Render(SiteEntry(rows, k).value, opt) == Render(SiteEntry(Restatus(rows, id, st), k).value, opt)
  {
    RestatusEntry(rows, id, st, k);
    var e := SiteEntry(rows, k).value;
    EntrySettings(rows, k);
    EntryHosts(rows, k, e.hosts[0]);
    var r :| r in rows && Contributes(r, k, e.hosts[0]);
    assert k == id ==> r.upstream == "" && e.upstream == "";
  }

  lemma {:induction false} RestatusRoutes(rows: seq<Row>, id: nat, st: SiteStatus, order: seq<nat>, opt: BuildOptions)
    requires Consistent(rows) && Muted(rows, id)
    ensures RenderAll(SiteRoutes(Restatus(rows, id, st), order), opt) == RenderAll(SiteRoutes(rows, order), opt)
  {
    if order != [] {
      var init, k := order[..|order| - 1], order[|order| - 1];
      RestatusRoutes(rows, id, st, init, opt);
      RestatusEntry(rows, id, st, k);
      var xs, ys := SiteRoutes(rows, init), SiteRoutes(Restatus(rows, id, st), init);
      if SiteEntry(rows, k).Some? && SiteEntry(rows, k).value.hosts != [] {
        RestatusRender(rows, id, st, k, opt);
        var e, f := SiteEntry(rows, k).value, SiteEntry(Restatus(rows, id, st), k).value;
        RenderConcat(xs, [e], opt);
        RenderConcat(ys, [f], opt);
        assert RenderAll([e], opt) == [Render(e, opt)] == RenderAll([f], opt);
      } else {
        assert xs + [] == xs && ys + [] == ys;
      }
    }
  }

  lemma RenderConcat(xs: seq<SiteRoute>, ys: seq<SiteRoute>, opt: BuildOptions)
    ensures RenderAll(xs + ys, opt) == RenderAll(xs, opt) + RenderAll(ys, opt)
  {
  }

  lemma RestatusGroup(rows: seq<Row>, id: nat, st: SiteStatus, opt: BuildOptions)
    requires Consistent(rows) && Muted(rows, id)
    ensures RenderAll(Group(Restatus(rows, id, st)), opt) == RenderAll(Group(rows), opt)
  {
    RestatusOrder(rows, id, st);
    RestatusRoutes(rows, id, st, SiteOrder(rows), opt);
    RenderConcat(SiteRoutes(rows, SiteOrder(rows)), RedirectRoutes(rows), opt);
    RenderConcat(SiteRoutes(Restatus(rows, id, st), SiteOrder(rows)), RedirectRoutes(rows), opt);
  }

  lemma RestatusTable(db: Db, rows: seq<Row>, id: nat, st: SiteStatus)
    requires ValidDb(db) && id in db.sites && IsRoutingTable(db, rows)
    requires Listed(db.sites[id].status) && Listed(st)
    ensures IsRoutingTable(SetStatus(db, id, st), Restatus(rows, id, st))
  {
    var other, out := SetStatus(db, id, st), Restatus(rows, id, st);
    forall d ensures Visible(other, d) <==> Visible(db, d) {}
    forall r | r in out ensures exists d :: Visible(other, d) && r == RowOf(other, d) {
      var i :| 0 <= i < |out| && out[i] == r;
      assert rows[i] in rows;
      var d :| Visible(db, d) && rows[i] == RowOf(db, d);
      assert r == RowOf(other, d);
    }
    forall d | Visible(other, d) ensures RowOf(other, d) in out {
      assert RowOf(db, d) in rows;
      var i :| 0 <= i < |rows| && rows[i] == RowOf(db, d);
      assert out[i] == RowOf(other, d);
    }
  }

  lemma HiddenView(db: Db, id: nat, st: SiteStatus)
    requires ValidDb(db) && id in db.sites && !Exposes(db, id, st)
    requires db.accounts[db.sites[id].account].status != Active || !Listed(db.sites[id].status) || !Listed(st)
             || db.sites[id].status == st
    ensures SameView(db, SetStatus(db, id, st))
  {
  }

  lemma HiddenFlip(db: Db, rows: seq<Row>, id: nat, st: SiteStatus)
    requires ValidDb(db) && id in db.sites && !Exposes(db, id, st) && IsRoutingTable(db, rows)
    requires db.accounts[db.sites[id].account].status == Active && Listed(db.sites[id].status) && Listed(st)
    requires db.sites[id].status != st
    ensures Muted(rows, id)
  {
    forall r | r in rows && r.siteId == id ensures r.redirectTo != "" || r.upstream == "" {
      var d :| Visible(db, d) && r == RowOf(db, d);
    }
  }

  lemma HiddenStaysTrue(db: Db, base: BuildOptions, cfg: Config, id: nat, st: SiteStatus)
    requires ValidDb(db) && id in db.sites && Coherent(db, base, cfg) && !Exposes(db, id, st)
    ensures Coherent(SetStatus(db, id, st), base, cfg)
  {
    var s := db.sites[id];
    if db.accounts[s.account].status == Active && Listed(s.status) && Listed(st) && s.status != st {
      var rows :| IsRoutingTable(db, rows) && Publishes(rows, Opts(base, db.settings), cfg);
      TableWellFormed(db, rows);
      HiddenFlip(db, rows, id, st);
      RestatusTable(db, rows, id, st);
      RestatusGroup(rows, id, st, Defaulted(Opts(base, db.settings)));
    } else {
      HiddenView(db, id, st);
      SameViewCoherent(db, SetStatus(db, id, st), base, cfg);
    }
  }

  /** RestartSite, a failed start, a failed redeploy and a failed deletion write one status and
      do not sync: the edge stays true to the database exactly when the write is not exposed. */
  lemma StatusWriteExactly(db: Db, base: BuildOptions, cfg: Config, id: nat, st: SiteStatus)
    requires ValidDb(db) && id in db.sites && Coherent(db, base, cfg)
    ensures Coherent(SetStatus(db, id, st), base, cfg) <==> !Exposes(db, id, st)
  {
    if Exposes(db, id, st) {
      ExposedGoesStale(db, base, cfg, id, st);
    } else {
      HiddenStaysTrue(db, base, cfg, id, st);
    }
  }

  /** When the edge refuses the load after a creation, only the final reading back decides whether
      success is reported, and the edge does not know the name when the account is active. */
  lemma CreateSiteMasksRefusal(db: Db, base: BuildOptions, cfg: Config, n: NewSite)
    requires ValidDb(db) && FreshSite(db, n) && Coherent(db, base, cfg) && Deployed(db, n) && !n.accepted
    ensures RunCreateSite(db, n).ok == n.fetched && !RunCreateSite(db, n).published
    ensures Coherent(RunCreateSite(db, n).final, base, cfg)
            <==> n.name == "" || db.accounts[n.account].status != Active
  {
    var after := RunCreateSite(db, n).final;
    CreateSiteValid(db, n);
    CreateSiteViews(db, n);
    if n.name != "" && db.accounts[n.account].status == Active {
      if Coherent(after, base, cfg) { SharedNames(after, db, base, cfg, n.domain); }
    } else {
      SameViewCoherent(db, after, base, cfg);
    }
  }

  lemma SiteUpHidden(named: Db, n: NewSite)
    requires n.site in named.sites && n.account in named.accounts
    requires named.sites[n.site] == Site(n.account, "", Provisioning)
    requires named.accounts[n.account].status != Active || !HasDomain(named, n.site)
    ensures SameView(named, SiteUp(named, n))
  {
  }

  lemma CreateSiteViews(db: Db, n: NewSite)
    requires ValidDb(db) && FreshSite(db, n) && Deployed(db, n) && !n.accepted
    ensures RunCreateSite(db, n).ok == n.fetched && !RunCreateSite(db, n).published
    ensures n.name == "" || db.accounts[n.account].status != Active ==> SameView(db, RunCreateSite(db, n).final)
    ensures n.name != "" && db.accounts[n.account].status == Active ==>
              var after := RunCreateSite(db, n).final;
              Visible(after, n.domain) && after.domains[n.domain].fqdn == n.name
              && forall e :: e in db.domains ==> db.domains[e].fqdn != n.name
  {
    var named := AddFirstDomain(AddSite(db, n), n);
    SameRefusal(db, n);
    if n.name == "" || db.accounts[n.account].status != Active {
      NamedHidden(db, n);
      SiteUpHidden(named, n);
      SameViewChain(db, named, SiteUp(named, n));
    } else {
      forall e | e in db.domains ensures db.domains[e].fqdn != n.name {}
    }
  }
}
