/** What each panel operation leaves behind, in terms of the rows alone: which fields it sets, what
    it reports, whether it published, and what it does not touch. */
module PanelEffects {
  import opened Wrappers
  import opened CaddyConfig
  import opened EdgeSync
  import opened EdgeCoherence

  /** The site keeps everything but its status. */
  ghost predicate OnlyStatuses(db: Db, after: Db) {
    after.sites.Keys == db.sites.Keys
    && forall s :: s in db.sites ==> after.sites[s] == db.sites[s].(status := after.sites[s].status)
  }

  /** All accounts but one are as they were, and that one keeps its usage. */
  ghost predicate OnlyAccount(db: Db, after: Db, a: nat) {
    after.accounts.Keys == db.accounts.Keys
    && forall x :: x in db.accounts ==>
         if x != a then after.accounts[x] == db.accounts[x]
         else after.accounts[x].usedMB == db.accounts[x].usedMB && after.accounts[x].diskMB == db.accounts[x].diskMB
  }

  ghost predicate OnlySite(db: Db, after: Db, id: nat) {
    after.accounts == db.accounts && after.domains == db.domains && after.settings == db.settings
    && after.sites.Keys == db.sites.Keys && forall s :: s in db.sites && s != id ==> after.sites[s] == db.sites[s]
  }

  // ---- Accounts ---------------------------------------------------------------------

  /** Suspension: the account is suspended with its reason, and when its sites could be listed those
      whose write went through are stopped. None of its names is left in the routing table. */
  lemma SuspendEffect(db: Db, a: nat, reason: string, listed: bool, wrote: set<nat>, accepted: bool)
    requires a in db.accounts
    ensures var o := Run(db, Suspend(a, reason, listed, wrote, accepted));
            && o.ok == (listed && accepted) && o.published == (listed && accepted)
            && OnlyAccount(db, o.final, a) && OnlyStatuses(db, o.final)
            && o.final.domains == db.domains && o.final.settings == db.settings
            && o.final.accounts[a].status == Suspended && o.final.accounts[a].reason == reason
            && (forall s :: s in db.sites ==>
                  o.final.sites[s].status == if listed && db.sites[s].account == a && s in wrote then Stopped
                                             else db.sites[s].status)
            && forall d :: Visible(o.final, d) ==> o.final.sites[o.final.domains[d].site].account != a
  {
  }

  /** So an edge true to the database answers for a suspended account's names only where the panel,
      the webmail or another account's name covers them. */
  lemma SuspendedUnserved(db: Db, op: Op, base: BuildOptions, cfg: Config, d: nat)
    requires ValidDb(db) && op.Suspend? && op.account in db.accounts && d in db.domains
    requires db.sites[db.domains[d].site].account == op.account
    requires Coherent(Run(db, op).final, base, cfg)
    ensures Serve(cfg.routes, db.domains[d].fqdn) != []
            <==> FixedAnswers(base, db.domains[d].fqdn)
                 || exists e :: Visible(Run(db, op).final, e) && db.domains[e].fqdn != db.domains[d].fqdn
                                && HostMatches(db.domains[e].fqdn, db.domains[d].fqdn)
  {
    RunValid(db, op);
    SuspendEffect(db, op.account, op.reason, op.listed, op.wrote, op.accepted);
    InactiveNotServed(Run(db, op).final, base, cfg, d);
  }

  /** The account is active without a reason; each site whose write went through runs if its
      container started and has failed otherwise. */
  lemma UnsuspendEffect(db: Db, a: nat, listed: bool, started: set<nat>, wrote: set<nat>, accepted: bool)
    requires a in db.accounts
    ensures var o := Run(db, Unsuspend(a, listed, started, wrote, accepted));
            && o.ok == (listed && accepted) && o.published == (listed && accepted)
            && OnlyAccount(db, o.final, a) && OnlyStatuses(db, o.final)
            && o.final.domains == db.domains && o.final.settings == db.settings
            && o.final.accounts[a].status == Active && o.final.accounts[a].reason == ""
            && forall s :: s in db.sites ==>
                 o.final.sites[s].status ==
                 if !listed || db.sites[s].account != a || s !in wrote then db.sites[s].status
                 else if s in started then Running else Failed
  {
  }

  /** The account goes with its sites and their domains, and nothing else does. */
  lemma TerminateEffect(db: Db, a: nat, accepted: bool)
    requires a in db.accounts
    ensures var o := Run(db, Terminate(a, accepted));
            && o.ok == accepted && o.published == accepted && o.final.settings == db.settings
            && (forall x :: x in o.final.accounts <==> x in db.accounts && x != a)
            && (forall x :: x in o.final.accounts ==> o.final.accounts[x] == db.accounts[x])
            && (forall s :: s in o.final.sites <==> s in db.sites && db.sites[s].account != a)
            && (forall s :: s in o.final.sites ==> o.final.sites[s] == db.sites[s])
            && (forall d :: d in o.final.domains
                            <==> d in db.domains && !(db.domains[d].site in db.sites
                                                      && db.sites[db.domains[d].site].account == a))
            && (forall d :: d in o.final.domains ==> o.final.domains[d] == db.domains[d])
  {
  }

  lemma MissingAccount(db: Db, op: Op)
    requires (op.Suspend? || op.Unsuspend? || op.Terminate?) && op.account !in db.accounts
    ensures Run(db, op) == Outcome(db, false, false)
  {
  }

  /** A new account is active and empty; when its directories cannot be made it goes again, unless
      that deletion fails; the first site's fate does not change the report. */
  lemma CreateAccountEffect(db: Db, a: nat, allowed: bool, dirsReady: bool, cleaned: bool, first: Option<NewSite>)
    requires ValidDb(db) && a !in db.accounts
    ensures var o := Run(db, CreateAccount(a, allowed, dirsReady, cleaned, first));
            && o.ok == (allowed && dirsReady)
            && (!allowed || (!dirsReady && cleaned) ==> o.final == db && !o.published)
            && (allowed && (dirsReady || !cleaned) ==>
                  && o.final.accounts.Keys == db.accounts.Keys + {a}
                  && o.final.accounts[a] == Account(Active, "", 0, 0)
                  && (forall x :: x in db.accounts ==> o.final.accounts[x] == db.accounts[x])
                  && o.final.settings == db.settings)
            && (first.None? || !dirsReady ==>
                  o.final.sites == db.sites && o.final.domains == db.domains && !o.published)
            && (first.Some? && dirsReady && allowed ==>
                  var made := db.(accounts := db.accounts[a := Account(Active, "", 0, 0)]);
                  var site := Run(made, CreateSite(first.value.(account := a)));
                  o.final == site.final && o.published == site.published)
  {
    if !dirsReady { DropNewAccount(db, a); }
  }

  lemma MeterEffect(db: Db, a: nat, used: int, disk: int)
    ensures var o := Run(db, Meter(a, used, disk));
            && o.ok && !o.published
            && o.final.sites == db.sites && o.final.domains == db.domains && o.final.settings == db.settings
            && o.final.accounts.Keys == db.accounts.Keys
            && forall x :: x in db.accounts ==>
                 o.final.accounts[x] ==
                 if x == a then db.accounts[x].(usedMB := used, diskMB := disk) else db.accounts[x]
  {
  }

  // ---- Sites ------------------------------------------------------------------------

  ghost predicate NameFree(db: Db, name: string) { forall d :: d in db.domains ==> db.domains[d].fqdn != name }

  /** The name is absent or well-formed and free. */
  ghost predicate NameOk(db: Db, name: string) { name == "" || (IsFqdn(name) && NameFree(db, name)) }

  lemma NameOkExactly(db: Db, n: NewSite)
    ensures NameRefused(AddSite(db, n), n) <==> !NameOk(db, n.name)
  {
  }

  /** One more site, and nothing else but perhaps its name. */
  ghost predicate SiteAdded(db: Db, after: Db, id: nat, site: Site) {
    && after.accounts == db.accounts && after.settings == db.settings
    && after.sites.Keys == db.sites.Keys + {id} && after.sites[id] == site
    && forall s :: s in db.sites && s != id ==> after.sites[s] == db.sites[s]
  }

  lemma AddedThenNamed(db: Db, n: NewSite)
    ensures SiteAdded(db, AddSite(db, n), n.site, Site(n.account, "", Provisioning))
    ensures SiteAdded(db, AddFirstDomain(AddSite(db, n), n), n.site, Site(n.account, "", Provisioning))
  {
  }

  lemma AddedThenSet(db: Db, made: Db, n: NewSite, site: Site)
    requires SiteAdded(db, made, n.site, site)
    ensures SiteAdded(db, Mark(made, n.site, Failed, n.saved), n.site,
                      if n.saved then site.(status := Failed) else site)
    ensures SiteAdded(db, SiteUp(made, n), n.site, Site(n.account, n.upstream, Running))
  {
  }

  /** Creation, wherever it stops, leaves one more site: provisioning; failed when directories or
      container fail and that write goes through; running with its upstream at the end. */
  lemma CreateSiteEffect(db: Db, n: NewSite)
    requires FreshSite(db, n) && n.allowed && n.account in db.accounts
    ensures SiteAdded(db, Run(db, CreateSite(n)).final, n.site,
                      if n.dirsReady && NameOk(db, n.name) && n.deployed then Site(n.account, n.upstream, Running)
                      else Site(n.account, "",
                                if (!n.dirsReady || NameOk(db, n.name)) && n.saved then Failed else Provisioning))
  {
    NameOkExactly(db, n);
    AddedThenNamed(db, n);
    AddedThenSet(db, AddSite(db, n), n, Site(n.account, "", Provisioning));
    AddedThenSet(db, AddFirstDomain(AddSite(db, n), n), n, Site(n.account, "", Provisioning));
  }

  lemma MarkedSite(db: Db, id: nat)
    requires id in db.sites
    ensures OnlySite(db, SetStatus(db, id, Failed), id)
    ensures SetStatus(db, id, Failed).sites[id] == db.sites[id].(status := Failed)
  {
  }

  /** Its name is taken on once the directories are there and the name is accepted, whatever follows;
      what is published and reported depends on the load and on the final reading back. */
  lemma CreateSiteNames(db: Db, n: NewSite)
    requires FreshSite(db, n) && n.allowed && n.account in db.accounts
    ensures var o := Run(db, CreateSite(n));
            && o.final.domains ==
               (if n.dirsReady && NameOk(db, n.name) && n.name != ""
                then db.domains[n.domain := Domain(n.site, n.name, "", true)] else db.domains)
            && o.published == (n.dirsReady && NameOk(db, n.name) && n.deployed && n.accepted)
            && o.ok == (n.dirsReady && NameOk(db, n.name) && n.deployed && n.fetched)
  {
    NameOkExactly(db, n);
    var made := AddSite(db, n);
    var named := AddFirstDomain(made, n);
    MarkedSite(made, n.site);
    MarkedSite(named, n.site);
  }

  lemma CreateSiteRefused(db: Db, n: NewSite)
    requires !n.allowed || n.account !in db.accounts
    ensures Run(db, CreateSite(n)) == Outcome(db, false, false)
  {
  }

  lemma StartEffect(db: Db, id: nat, running: bool, saved: bool, accepted: bool)
    requires id in db.sites
    ensures var o := Run(db, StartSite(id, running, saved, accepted));
            && OnlySite(db, o.final, id)
            && o.final.sites[id] == (if !saved then db.sites[id]
                                     else db.sites[id].(status := if running then Running else Failed))
            && o.ok == (running && saved && accepted) && o.published == (running && saved && accepted)
  {
  }

  lemma StopEffect(db: Db, id: nat, stopped: bool, accepted: bool)
    requires id in db.sites
    ensures var o := Run(db, StopSite(id, stopped, accepted));
            && OnlySite(db, o.final, id)
            && o.final.sites[id] == (if stopped then db.sites[id].(status := Stopped) else db.sites[id])
            && o.ok == (stopped && accepted) && o.published == (stopped && accepted)
  {
  }

  lemma RedeployEffect(db: Db, id: nat, deployed: bool, upstream: string, saved: bool, accepted: bool)
    requires id in db.sites
    ensures var o := Run(db, RedeploySite(id, deployed, upstream, saved, accepted));
            && OnlySite(db, o.final, id)
            && o.final.sites[id] == (if deployed then Site(db.sites[id].account, upstream, Running)
                                     else if saved then db.sites[id].(status := Failed) else db.sites[id])
            && o.ok == (deployed && accepted) && o.published == (deployed && accepted)
  {
  }

  lemma RestartEffect(db: Db, id: nat, restarted: bool, saved: bool)
    requires id in db.sites
    ensures var o := Run(db, RestartSite(id, restarted, saved));
            && OnlySite(db, o.final, id)
            && o.final.sites[id] == (if saved then db.sites[id].(status := if restarted then Running else Failed)
                                     else db.sites[id])
            && o.ok == (restarted && saved) && !o.published
  {
  }

  lemma DeleteEffect(db: Db, id: nat, saved: bool, removed: bool, accepted: bool)
    requires id in db.sites
    ensures var o := Run(db, DeleteSite(id, saved, removed, accepted));
            && o.ok == (removed && accepted) && o.published == (removed && accepted)
            && o.final.accounts == db.accounts && o.final.settings == db.settings
            && (!removed ==> OnlySite(db, o.final, id)
                             && o.final.sites[id] == if saved then db.sites[id].(status := Deleting) else db.sites[id])
            && (removed ==>
                  && (forall s :: s in o.final.sites <==> s in db.sites && s != id)
                  && (forall s :: s in o.final.sites ==> o.final.sites[s] == db.sites[s])
                  && (forall d :: d in o.final.domains <==> d in db.domains && db.domains[d].site != id)
                  && (forall d :: d in o.final.domains ==> o.final.domains[d] == db.domains[d]))
  {
  }

  lemma MissingSite(db: Db, op: Op)
    requires match op
             case StartSite(s, _, _, _) => s !in db.sites
             case StopSite(s, _, _) => s !in db.sites
             case RedeploySite(s, _, _, _, _) => s !in db.sites
             case RestartSite(s, _, _) => s !in db.sites
             case DeleteSite(s, _, _, _) => s !in db.sites
             case _ => false
    ensures Run(db, op) == Outcome(db, false, false)
  {
  }

  // ---- Domains, drift and settings ----------------------------------------------------

  lemma AddDomainEffect(db: Db, d: nat, site: nat, name: string, redirectTo: string, allowed: bool, accepted: bool)
    ensures var o := Run(db, AddDomain(d, site, name, redirectTo, allowed, accepted));
            if IsFqdn(name) && site in db.sites && allowed && NameFree(db, name)
            then o.final == db.(domains := db.domains[d := Domain(site, name, redirectTo, true)])
                 && o.ok == accepted && o.published == accepted
            else o == Outcome(db, false, false)
  {
    assert Taken(db, name) <==> !NameFree(db, name);
  }

  lemma RemoveDomainEffect(db: Db, d: nat, accepted: bool)
    ensures var o := Run(db, RemoveDomain(d, accepted));
            && o.final.accounts == db.accounts && o.final.sites == db.sites && o.final.settings == db.settings
            && (forall x :: x in o.final.domains <==> x in db.domains && x != d)
            && (forall x :: x in o.final.domains ==> o.final.domains[x] == db.domains[x])
            && o.ok == (d in db.domains && accepted) && o.published == o.ok
  {
  }

  /** The status Docker's answer calls for; none when the site is being created or deleted, Docker
      gave no answer, or an answer that says nothing. */
  function Observed(db: Db, states: map<nat, DockerState>, s: nat): Option<SiteStatus>
    requires s in db.sites
  {
    if db.sites[s].status in {Provisioning, Deleting} || s !in states then None
    else match states[s]
      case DockerRunning => Some(Running)
      case DockerExited => Some(Stopped)
      case DockerMissing => Some(Failed)
      case DockerOther => None
  }

  /** A pass sets exactly the sites observed in another status, as far as the writes go through, and
      syncs exactly when there is one, whether or not its write went through. */
  lemma ReconcileEffect(db: Db, states: map<nat, DockerState>, wrote: set<nat>, accepted: bool)
    ensures var o := Run(db, Reconcile(states, wrote, accepted));
            && o.final.accounts == db.accounts && o.final.domains == db.domains && o.final.settings == db.settings
            && OnlyStatuses(db, o.final)
            && (forall s :: s in db.sites ==>
                  o.final.sites[s].status ==
                  if s in wrote && Observed(db, states, s).Some? then Observed(db, states, s).value
                  else db.sites[s].status)
            && (var drift := exists s :: s in db.sites && Observed(db, states, s).Some?
                                         && Observed(db, states, s).value != db.sites[s].status;
                o.published == (drift && accepted) && o.ok == (drift ==> accepted))
  {
    forall s | s in db.sites
      ensures Drifted(db, states, s)
              <==> Observed(db, states, s).Some? && Observed(db, states, s).value != db.sites[s].status
    {
    }
  }

  /** Settings change as a whole or not at all: below the limits nothing happens; refused ones are
      written back when that write succeeds and stay, unpublished, when it fails. */
  lemma UpdateSettingsEffect(db: Db, settings: Settings, accepted: bool, reverted: bool)
    ensures var o := Run(db, UpdateSettings(settings, accepted, reverted));
            var valid := settings.rateLimitPerMinute >= 10 && settings.retentionDays >= 1;
            && o.final == db.(settings := if valid && (accepted || !reverted) then settings else db.settings)
            && o.ok == (valid && accepted) && o.published == (valid && accepted)
  {
  }
}
