/** The panel service as an object: database rows and the published configuration are fields
    that each lifecycle operation updates step by step. Parameters carry the answers of
    Docker, the file system and the edge. */
module PanelService {
  import opened Strings
  import opened Wrappers
  import opened CaddyConfig
  import opened EdgeSync
  import opened EdgeCoherence

  lemma OneMoreStatus(db: Db, upd: map<nat, SiteStatus>, s: nat, st: SiteStatus)
    ensures SetStatus(SetStatuses(db, upd), s, st) == SetStatuses(db, upd[s := st])
  {
  }

  lemma OneMoreCorrection(db: Db, states: map<nat, DockerState>, wrote: set<nat>, done: set<nat>, s: nat)
    requires s !in done
    ensures SetStatuses(db, Corrections(db, states, wrote, done + {s})) ==
            if s in wrote && Drifted(db, states, s)
            then SetStatus(SetStatuses(db, Corrections(db, states, wrote, done)),
                           s, Want(states[s], db.sites[s].status))
            else SetStatuses(db, Corrections(db, states, wrote, done))
  {
    var m, n := Corrections(db, states, wrote, done), Corrections(db, states, wrote, done + {s});
    if s in wrote && Drifted(db, states, s) {
      OneMoreStatus(db, m, s, Want(states[s], db.sites[s].status));
      assert n == m[s := Want(states[s], db.sites[s].status)];
    } else {
      assert n == m;
    }
  }

  lemma OneLess(upd: map<nat, SiteStatus>, todo: set<nat>, s: nat)
    requires s in todo && s in upd
    ensures (upd - todo)[s := upd[s]] == upd - (todo - {s})
  {
  }

  class Panel {
    var db: Db
    var published: Config
    const base: BuildOptions

    constructor (db: Db, base: BuildOptions, running: Config)
      ensures this.db == db && this.base == base && published == running
    {
      this.db, this.base, published := db, base, running;
    }

    /** The operation did to database and edge what `Run` says, and reported its result. */
    twostate predicate Performs(op: Op, ok: bool)
      reads this
    {
      ok == Run(old(db), op).ok && Step(old(db), old(published), op, base, db, published)
    }

    method RoutingTable() returns (rows: seq<Row>)
      requires ValidDb(db)
      ensures IsRoutingTable(db, rows)
    {
      var out: seq<Row> := [];
      var todo := db.domains.Keys;
      while todo != {}
        invariant todo <= db.domains.Keys
        invariant forall r {:trigger r in out} ::
                    r in out <==> exists d :: d in db.domains && d !in todo && Visible(db, d) && r == RowOf(db, d)
        invariant forall i, j :: 0 <= i < j < |out| ==> out[i].fqdn != out[j].fqdn
        decreases todo
      {
        var d :| d in todo;
        todo := todo - {d};
        if Visible(db, d) {
          forall i | 0 <= i < |out| ensures out[i].fqdn != db.domains[d].fqdn {
            assert out[i] in out;
          }
          out := out + [RowOf(db, d)];
        }
      }
      rows := SortBy(out, (r: Row) => r.fqdn);
      SameMembers(rows, out);
      SortedRows(out, rows);
    }

    method SyncCaddy(accepted: bool) returns (ok: bool)
      requires ValidDb(db)
      modifies this`published
      ensures ok == accepted
      ensures if ok then Coherent(db, base, published) else published == old(published)
    {
      var rows := RoutingTable();
      var routes := GroupRows(rows);
      var opt := Opts(base, db.settings);
      var cfg := Build(routes, opt);
      if accepted { published := cfg; }
      return accepted;
    }

    method WriteStatuses(upd: map<nat, SiteStatus>)
      modifies this`db
      ensures db == SetStatuses(old(db), upd)
    {
      var todo := upd.Keys;
      ghost var was, done: map<nat, SiteStatus> := db, map[];
      assert db == SetStatuses(was, done);
      while todo != {}
        invariant todo <= upd.Keys && done == upd - todo
        invariant db == SetStatuses(was, done)
        decreases todo
      {
        var s :| s in todo;
        OneMoreStatus(was, done, s, upd[s]);
        OneLess(upd, todo, s);
        todo, done := todo - {s}, done[s := upd[s]];
        db := SetStatus(db, s, upd[s]);
      }
      assert upd - todo == upd;
    }

    method CreateAccount(account: nat, allowed: bool, dirsReady: bool, cleaned: bool, first: Option<NewSite>)
      returns (ok: bool)
      requires ValidDb(db) && Fresh(db, Op.CreateAccount(account, allowed, dirsReady, cleaned, first))
      modifies this
      ensures Performs(Op.CreateAccount(account, allowed, dirsReady, cleaned, first), ok) && ValidDb(db)
    {
      RunValid(db, Op.CreateAccount(account, allowed, dirsReady, cleaned, first));
      if !allowed { return false; }
      NewAccountValid(db, account);
      db := db.(accounts := db.accounts[account := Account(Active, "", 0, 0)]);
      if !dirsReady {
        if cleaned { db := DropAccount(db, account); }
        return false;
      }
      if first.Some? {
        var _ := this.CreateSite(first.value.(account := account));
      }
      return true;
    }

    method SuspendAccount(account: nat, reason: string, listed: bool, wrote: set<nat>, accepted: bool)
      returns (ok: bool)
      requires ValidDb(db)
      modifies this
      ensures Performs(Suspend(account, reason, listed, wrote, accepted), ok) && ValidDb(db)
    {
      RunValid(db, Suspend(account, reason, listed, wrote, accepted));
      if account !in db.accounts { return false; }
      var sites := SitesOf(db, account);
      db := SetAccount(db, account, Suspended, reason);
      if !listed { return false; }
      WriteStatuses(map s | s in sites && s in wrote :: Stopped);
      ok := SyncCaddy(accepted);
    }

    method UnsuspendAccount(account: nat, listed: bool, started: set<nat>, wrote: set<nat>, accepted: bool)
      returns (ok: bool)
      requires ValidDb(db)
      modifies this
      ensures Performs(Unsuspend(account, listed, started, wrote, accepted), ok) && ValidDb(db)
    {
      RunValid(db, Unsuspend(account, listed, started, wrote, accepted));
      if account !in db.accounts { return false; }
      var sites := SitesOf(db, account);
      db := SetAccount(db, account, Active, "");
      if !listed { return false; }
      WriteStatuses(map s | s in sites && s in wrote :: if s in started then Running else Failed);
      ok := SyncCaddy(accepted);
    }

    method TerminateAccount(account: nat, accepted: bool) returns (ok: bool)
      requires ValidDb(db)
      modifies this
      ensures Performs(Terminate(account, accepted), ok) && ValidDb(db)
    {
      RunValid(db, Terminate(account, accepted));
      if account !in db.accounts { return false; }
      db := DropAccount(db, account);
      ok := SyncCaddy(accepted);
    }

    method CreateSite(n: NewSite) returns (ok: bool)
      requires ValidDb(db) && FreshSite(db, n)
      modifies this
      ensures Performs(Op.CreateSite(n), ok) && ValidDb(db)
    {
      CreateSiteValid(db, n);
      if !n.allowed || n.account !in db.accounts { return false; }
      db := db.(sites := db.sites[n.site := Site(n.account, "", Provisioning)]);
      if !n.dirsReady {
        db := Mark(db, n.site, Failed, n.saved);
        return false;
      }
      if n.name != "" {
        if !IsFqdn(n.name) { return false; }
        if Taken(db, n.name) { return false; }
        db := db.(domains := db.domains[n.domain := Domain(n.site, n.name, "", true)]);
      }
      if !n.deployed {
        db := Mark(db, n.site, Failed, n.saved);
        return false;
      }
      db := db.(sites := db.sites[n.site := Site(n.account, n.upstream, Running)]);
      var _ := SyncCaddy(n.accepted);
      return n.fetched;
    }

    method StartSite(site: nat, running: bool, saved: bool, accepted: bool) returns (ok: bool)
      requires ValidDb(db)
      modifies this
      ensures Performs(Op.StartSite(site, running, saved, accepted), ok) && ValidDb(db)
    {
      RunValid(db, Op.StartSite(site, running, saved, accepted));
      if site !in db.sites { return false; }
      if !running {
        db := Mark(db, site, Failed, saved);
        return false;
      }
      if !saved { return false; }
      db := SetStatus(db, site, Running);
      ok := SyncCaddy(accepted);
    }

    method StopSite(site: nat, stopped: bool, accepted: bool) returns (ok: bool)
      requires ValidDb(db)
      modifies this
      ensures Performs(Op.StopSite(site, stopped, accepted), ok) && ValidDb(db)
    {
      RunValid(db, Op.StopSite(site, stopped, accepted));
      if site !in db.sites || !stopped { return false; }
      db := SetStatus(db, site, Stopped);
      ok := SyncCaddy(accepted);
    }

    method RedeploySite(site: nat, deployed: bool, upstream: string, saved: bool, accepted: bool) returns (ok: bool)
      requires ValidDb(db)
      modifies this
      ensures Performs(Op.RedeploySite(site, deployed, upstream, saved, accepted), ok) && ValidDb(db)
    {
      RunValid(db, Op.RedeploySite(site, deployed, upstream, saved, accepted));
      if site !in db.sites { return false; }
      if !deployed {
        db := Mark(db, site, Failed, saved);
        return false;
      }
      db := db.(sites := db.sites[site := Site(db.sites[site].account, upstream, Running)]);
      ok := SyncCaddy(accepted);
    }

    method RestartSite(site: nat, restarted: bool, saved: bool) returns (ok: bool)
      requires ValidDb(db)
      modifies this
      ensures Performs(Op.RestartSite(site, restarted, saved), ok) && ValidDb(db)
    {
      RunValid(db, Op.RestartSite(site, restarted, saved));
      if site !in db.sites { return false; }
      if !restarted {
        db := Mark(db, site, Failed, saved);
        return false;
      }
      db := Mark(db, site, Running, saved);
      return saved;
    }

    method DeleteSite(site: nat, saved: bool, removed: bool, accepted: bool) returns (ok: bool)
      requires ValidDb(db)
      modifies this
      ensures Performs(Op.DeleteSite(site, saved, removed, accepted), ok) && ValidDb(db)
    {
      RunValid(db, Op.DeleteSite(site, saved, removed, accepted));
      if site !in db.sites { return false; }
      ghost var before := db;
      db := Mark(db, site, Deleting, saved);
      if !removed { return false; }
      db := DropSites(db, {site});
      assert db == DropSites(before, {site});
      ok := SyncCaddy(accepted);
    }

    method AddDomain(domain: nat, site: nat, name: string, redirectTo: string, allowed: bool, accepted: bool)
      returns (ok: bool)
      requires ValidDb(db) && Fresh(db, Op.AddDomain(domain, site, name, redirectTo, allowed, accepted))
      modifies this
      ensures Performs(Op.AddDomain(domain, site, name, redirectTo, allowed, accepted), ok) && ValidDb(db)
    {
      RunValid(db, Op.AddDomain(domain, site, name, redirectTo, allowed, accepted));
      if !IsFqdn(name) { return false; }
      if site !in db.sites || !allowed { return false; }
      if Taken(db, name) { return false; }
      db := db.(domains := db.domains[domain := Domain(site, name, redirectTo, true)]);
      ok := SyncCaddy(accepted);
    }

    method RemoveDomain(domain: nat, accepted: bool) returns (ok: bool)
      requires ValidDb(db)
      modifies this
      ensures Performs(Op.RemoveDomain(domain, accepted), ok) && ValidDb(db)
    {
      RunValid(db, Op.RemoveDomain(domain, accepted));
      if domain !in db.domains { return false; }
      db := db.(domains := map x | x in db.domains && x != domain :: db.domains[x]);
      ok := SyncCaddy(accepted);
    }

    /** One round of the loop below: the site as it was listed, among those already done. */
    method Correct(id: nat, site: Site, states: map<nat, DockerState>, wrote: set<nat>,
                   ghost before: Db, ghost done: set<nat>) returns (drifted: bool)
      requires id in before.sites && before.sites[id] == site && id !in done
      requires db == SetStatuses(before, Corrections(before, states, wrote, done))
      modifies this`db
      ensures drifted == Drifted(before, states, id)
      ensures db == SetStatuses(before, Corrections(before, states, wrote, done + {id}))
    {
      OneMoreCorrection(before, states, wrote, done, id);
      if site.status == Provisioning || site.status == Deleting || id !in states { return false; }
      var want := Want(states[id], site.status);
      if want == site.status { return false; }
      if id in wrote { db := SetStatus(db, id, want); }
      return true;
    }

    /** One pass of reconcileLoop; sites missing from `states` gave no answer. */
    method Reconcile(states: map<nat, DockerState>, wrote: set<nat>, accepted: bool) returns (ok: bool)
      requires ValidDb(db)
      modifies this
      ensures Performs(Op.Reconcile(states, wrote, accepted), ok) && ValidDb(db)
    {
      RunValid(db, Op.Reconcile(states, wrote, accepted));
      ghost var before, done: set<nat> := db, {};
      var sites := db.sites;
      var todo := sites.Keys;
      var changed := false;
      assert db == SetStatuses(before, Corrections(before, states, wrote, {}));
      while todo != {}
        invariant done !! todo && done + todo == sites.Keys && before.sites == sites
        invariant changed <==> exists s :: s in done && Drifted(before, states, s)
        invariant db == SetStatuses(before, Corrections(before, states, wrote, done))
        invariant published == old(published)
        decreases todo
      {
        var s :| s in todo;
        var drifted := Correct(s, sites[s], states, wrote, before, done);
        changed := changed || drifted;
        todo, done := todo - {s}, done + {s};
      }
      if !changed { return true; }
      ok := SyncCaddy(accepted);
    }

    /** handleUpdateSecuritySettings: the previous settings are written back when the edge refuses. */
    method UpdateSettings(settings: Settings, accepted: bool, reverted: bool) returns (ok: bool)
      requires ValidDb(db)
      modifies this
      ensures Performs(Op.UpdateSettings(settings, accepted, reverted), ok) && ValidDb(db)
    {
      if settings.rateLimitPerMinute < 10 { return false; }
      if settings.retentionDays < 1 { return false; }
      var previous := db.settings;
      db := db.(settings := settings);
      ok := SyncCaddy(accepted);
      if !ok && reverted { db := db.(settings := previous); }
    }

    /** Disk and traffic counters written by the quota worker. */
    method RecordUsage(account: nat, usedMB: int, diskMB: int) returns (ok: bool)
      requires ValidDb(db)
      modifies this
      ensures Performs(Meter(account, usedMB, diskMB), ok) && ValidDb(db)
    {
      if account in db.accounts {
        db := db.(accounts := db.accounts[account := db.accounts[account].(usedMB := usedMB, diskMB := diskMB)]);
      }
      return true;
    }
  }

  lemma SortedRows(out: seq<Row>, rows: seq<Row>)
    requires multiset(rows) == multiset(out) && KeyOrder(rows, (r: Row) => r.fqdn)
    requires forall i, j :: 0 <= i < j < |out| ==> out[i].fqdn != out[j].fqdn
    ensures forall i, j :: 0 <= i < j < |rows| ==> Less(rows[i].fqdn, rows[j].fqdn)
  {
    SameMembers(rows, out);
    forall i, j | 0 <= i < j < |rows| ensures Less(rows[i].fqdn, rows[j].fqdn) {
      LessTotal(rows[i].fqdn, rows[j].fqdn);
      if rows[i].fqdn == rows[j].fqdn {
        assert rows[i] in out && rows[j] in out;
        var k :| 0 <= k < |out| && out[k] == rows[i];
        var l :| 0 <= l < |out| && out[l] == rows[j];
        CountTwice(rows, i, j);
        CountOnce(out, rows[i]);
      }
    }
  }
}
