# GoControlPanel: verified models

GoControlPanel is a hosting panel: it keeps accounts, sites and domains in a database, runs
sites in containers, and publishes a Caddy configuration for the edge. This project models the
parts of it that carry real logic and proves what they promise.

Check the whole project with `dafny verify dfyconfig.toml`.

## What is modelled

* **The edge compiler** (`CaddyConfig`, `EdgeSync`). Routing-table rows are grouped by site,
  rendered to routes and sorted. The result is an ordered list of terminal routes plus the TLS
  subjects. The meaning of such a list is first match (`Serve`); the meaning of the table is
  written down independently (`Intended`), and the two are proved equal. `sort.Slice` is not
  stable, so the specification of `Build` (`Compiles`) admits every arrangement without
  inversions; that one result remains is a theorem.
* **The published configuration as a cache** (`EdgeCoherence`, `PanelService`, `EdgeEquivalence`,
  `EdgeInterleaving`). `Panel` is the
  service object: its fields are the database and the published configuration, its methods are
  the lifecycle operations, written step by step as in the source. Docker, the file system, SQL
  failures and Caddy's answer are parameters. `Run` says what each operation leaves behind;
  `Coherent` says that the published configuration is the one the database asks for.
  `PanelEffects` says what each operation does to the rows, without `Run`'s own functions.
  `EdgeEquivalence` says when one configuration is true to two databases, and so
  when any run, with any failures, ends coherent. `EdgeInterleaving` then lets the operations run at the same time, with the sync's mutex.
* **Bandwidth accounting** (`Bandwidth`). Counters that fall back to 0 with a container restart,
  truncated monthly totals, automatic suspension; then every interleaving of traffic, restarts
  and quota ticks.
* **The rate limiter** (`RateLimiting`). Slices over shared backing arrays, filtered in place,
  with a periodic collection of keys; the specification keeps every accepted call for ever.
* **Authentication** (`Sessions`, `WebClient`, `Totp`). Refresh rotation as interleaved atomic
  statements, the browser's single-flight refresh composed with that server, and two-factor
  codes with bitwise truncation and a replay guard.
* **Schedules, parsers and printers** (`Cron`, `CronLoop`, `Firewall`, `Shell`, `WafLog`).
  `Patterns` gives the regular expressions for names and rule ports their languages.

`Strings` and `Wrappers` hold Go's string operations and `Option`.

## Where the code and its description differ

The models follow the code. These differences are stated as theorems.

* A wildcard name sorts before the letters, so one site's `*.a.io` answers for another site's
  `b.a.io` (`EdgeSync.WildcardShadows`, `EdgeSync.ShadowExample`); `EdgeSync.MeaningExactly` says when the meaning is kept.
* `RestartSite`, a failed start, a failed redeploy and a failed deletion write a site status and
  do not sync. `EdgeCoherence.StatusWriteExactly` and `EdgeEquivalence.StatusOperations` say exactly
  when the edge goes stale, `EdgeEquivalence.RestartGoesStale` gives an instance.
* `CreateSite` does not report that the edge refused the load
  (`EdgeCoherence.CreateSiteMasksRefusal`).
* The comment of `handleTLSAuthorize` speaks of domains of active sites; the code also accepts
  the panel host and the names of stopped sites (`EdgeSync.TlsAuthorize`).
* The traffic counter is described as losing and duplicating nothing. Fractions of a megabyte
  are lost at every addition, traffic before a restart is lost, and a baseline write that failed
  counts the same traffic twice (`Bandwidth.TruncationBound`, `Bandwidth.Ledger`,
  `Bandwidth.OverCreditedExactly`, `Bandwidth.FailedSaveCountsTwice`).
* The comment of `ValidateTOTP` promises a tolerance of 30 seconds either way; only the current
  step and the one before are accepted (`Totp.AcceptedStepIsCurrent`).
* The cron loop is meant to run once a minute; after a stall it skips a minute and evaluates
  another one twice (`CronLoop.StallExactly`, `CronLoop.OncePerMinuteExactly`).
* A logout does not end a refresh that is between its steps (`Sessions.LogoutRace`,
  `Sessions.LogoutExactly`).
* A malformed later element of a cron field is an error only when no earlier one hits
  (`Cron.PartsExactly`, `Cron.EarlyExitHides`, `Cron.OrderMatters`), and a malformed later field
  only when no earlier one says no (`Cron.MatchExactly`).
* The trim of the SSH client's reply can shorten the comment of the last firewall rule
  (`Firewall.RoundTripExactly`, `Firewall.CommentFrays`).
* The rollback of refused settings is not under the sync's mutex, so another operation can publish
  what is being rolled back (`EdgeInterleaving.RollbackRace`); `EdgeInterleaving.SettingsRunsExactly`
  says when a run of changes and rollbacks ends right.
* A browser that loses the reply to a renewal keeps a spent token and may post it again
  (`WebClient.SpentTokenPosted`, `WebClient.PostsAreCurrent`).

## Model

| member | source | states |
|---|---|---|
| `CaddyConfig.Build` | internal/caddyapi/config.go:147-309 | whatever order sort.Slice picks among equal keys, the result is an inversion-free arrangement of the rendered client routes behind panel and webmail, without empty routes, with the TLS section for exactly its names |
| `CaddyConfig.BuildRoutes` | internal/caddyapi/config.go:147-260 | every input route with hosts is published with those hosts, terminal, behind rate limit (240 a minute when unset) and firewall exactly when they are on, and answering with its redirect, else the 503 page, else its upstream; no other route is published but panel and webmail |
| `CaddyConfig.RedirectSends` | internal/caddyapi/config.go:368-379 | a redirect goes to the target, https unless it says otherwise, without its trailing slashes, followed by the URI of the request |
| `CaddyConfig.BuildDefaults` | internal/caddyapi/config.go:148-156 | ports 80 and 443 and level INFO stand in for missing ones |
| `CaddyConfig.TlsExactly` | internal/caddyapi/config.go:272-306 | no TLS section exactly without e-mail and ask URL; otherwise the policy of the subjects exactly when there are any, the on-demand policy and the ask URL exactly when one is set, and the mail name kept renewed |
| `CaddyConfig.SortBy` | internal/caddyapi/config.go:191-196 | the sort keeps every element with its multiplicity and leaves no inversion of the joined-hosts key; nothing is promised about ties |
| `CaddyConfig.Dedupe` | internal/caddyapi/config.go:394-406 | the seen-map loop followed by the sort yields the one strictly increasing list of the non-empty names |
| `CaddyConfig.Canonical` | internal/caddyapi/config.go:394-406 | the de-duplicated list is strictly increasing and holds exactly the non-empty input names |
| `CaddyConfig.TlsSection` | internal/caddyapi/config.go:272-306 | no TLS app without e-mail and ask URL; otherwise the subject policy only if there are subjects, the on-demand policy only with an ask URL, and the mail name automated |
| `CaddyConfig.ClientSection` | internal/caddyapi/config.go:218-270 | the client loop skips routes without hosts, keeps the others in sorted order and collects all their hosts as subjects |
| `CaddyConfig.UniqueOrder` | internal/caddyapi/config.go:191-196 | routes with non-empty, pairwise disjoint, comma-free host lists have exactly one sorted arrangement, although the sort is not stable |
| `CaddyConfig.BuildPermutation` | internal/caddyapi/config.go:147-309 | for input routes with non-empty, pairwise disjoint, comma-free host lists any two results of Build for permutations of them are the same configuration |
| `CaddyConfig.PermutationInvariant` | internal/caddyapi/config.go:191-270 | the same for route lists already rendered |
| `CaddyConfig.SubjectsExact` | internal/caddyapi/config.go:198-306 | the subject list is strictly increasing, holds exactly the non-empty panel, webmail, mail and client names, and covers every name a published route answers for |
| `CaddyConfig.ServeFirst` | internal/caddyapi/config.go:164-260 | in a list of terminal routes the first matching one answers alone |
| `Strings.JoinInjective` | internal/caddyapi/config.go:194-196 | the comma join used as sort key identifies a non-empty list of comma-free names |
| `EdgeSync.GroupRows` | internal/provision/service.go:666-701 | the map-and-order loops produce one route per site, in order of first appearance, with the hosts of its rows that do not redirect, then one route per redirect |
| `EdgeSync.GroupDisjoint` | internal/provision/service.go:666-701 | with unique names, every name of the table lands in exactly one grouped route and no grouped route is empty |
| `EdgeSync.MemberMeaning` | internal/provision/service.go:672-699 | each host of a grouped route belongs to a row and is answered as that row asks |
| `EdgeSync.MemberFor` | internal/provision/service.go:672-699 | no row is lost: each row's name is in some grouped route |
| `EdgeSync.FirstRowDecides` | internal/provision/service.go:669-679 | the route of a site has the settings of the site's first row |
| `EdgeSync.RedirectsExactly` | internal/provision/service.go:693-701 | a redirecting row becomes a route of its name and target alone |
| `EdgeSync.PublishedMeaning` | internal/provision/service.go:657-737 | for every host that no foreign wildcard covers, first match over the published routes gives panel, else webmail, else the row's redirect, else 503 when not running or without upstream, else its upstream, and nothing exactly for unknown hosts |
| `EdgeSync.RowServed` | internal/provision/service.go:657-737 | a listed host that no other name covers gets, behind the guards, the redirect with the path kept, the page with its default text, or the site, as its row says |
| `EdgeSync.LeastMatchServes` | internal/caddyapi/config.go:191-196 | with arbitrary wildcards, a host that neither panel nor webmail answers gets the matching grouped route with the least sort key |
| `EdgeSync.WinnerExists` | internal/caddyapi/config.go:191-196 | such a route exists if and only if some name of the table covers the host |
| `EdgeSync.ServedExactly` | internal/provision/service.go:657-737 | for every host, wildcards or not, something answers if and only if panel or webmail does or some name of the table covers it |
| `EdgeSync.MeaningExactly` | internal/caddyapi/config.go:191-196 | for every table and every host the published configuration keeps the meaning if and only if panel or webmail answers, or every covering route that sorts first (there is one whenever a name covers the host) gives what the row named like the host asks |
| `EdgeSync.WildcardShadows` | internal/caddyapi/config.go:191-196 | a wildcard of one site that sorts before another site's exact name takes that name over |
| `EdgeSync.ShadowExample` | internal/caddyapi/config.go:191-196 | two valid rows, `*.a.io` and `b.a.io`, whose published configuration does not keep the table's meaning |
| `EdgeSync.TlsAuthorize` | internal/api/handlers_system.go:201-227 | the early-exit scan accepts a domain if and only if it is the panel host or a host of a route SyncCaddy would build from the same table; the error replies are exact too |
| `EdgeCoherence.FqdnCommaFree` | internal/provision/service.go:32 | a name that passes the reFQDN pattern holds no comma, so the sort key cannot be confused |
| `Patterns.FqdnExactly` | internal/provision/service.go:32 | the name check accepts exactly the language of the regular expression |
| `Patterns.PortExactly` | internal/hostctl/parse.go:30 | the port and protocol of a rule are read from exactly the language of the regular expression |
| `EdgeCoherence.VisibleExactly` | internal/store/sites.go:263-287 | the query takes exactly the domains of running or stopped sites of active accounts, with their columns |
| `EdgeCoherence.TableWellFormed` | internal/store/sites.go:263-287 | the foreign keys, the UNIQUE constraint and the name check give the routing table unique, comma-free names and consistent site columns |
| `EdgeCoherence.TableUnique` | internal/store/sites.go:263-287 | the query has one possible result for a database state |
| `EdgeCoherence.SyncIdempotent` | internal/provision/service.go:657-737 | all syncs of one database state publish the same configuration |
| `EdgeCoherence.CoherentMeaning` | internal/provision/service.go:657-737 | a configuration that is coherent with the database serves every host no foreign wildcard covers as the routing table asks |
| `EdgeCoherence.VisitorGets` | internal/provision/service.go:657-737 | what a coherent edge answers for a visible name that no other covers, from the database alone: the stored firewall switch and rate limit, then redirect, page or site |
| `EdgeCoherence.AnsweredExactly` | internal/provision/service.go:657-737 | a coherent configuration answers for a host if and only if panel or webmail does or a name of a running or stopped site of an active account covers it |
| `EdgeCoherence.InactiveNotServed` | internal/store/sites.go:263-287 | in a coherent configuration a name of an account that is not active is served if and only if panel or webmail answers for it or another, active account's name covers it |
| `EdgeCoherence.RunValid` | internal/database/migrations/0001_init.sql:74-112 | every operation, failed or not, keeps the foreign keys, unique names and comma-free names |
| `EdgeCoherence.StepKeepsCoherence` | internal/provision/service.go:104-737 | every operation that reports success (other than RestartSite, and a creation whose load was refused), an error return of CreateSite before its sync or after an accepted one, and a settings change that was refused and rolled back leave the published configuration coherent with the database |
| `EdgeCoherence.RunsKeepCoherence` | internal/provision/service.go:282-737 | over any sequence of such operations, reconcile passes, settings changes and usage updates the configuration stays coherent at every point |
| `EdgeCoherence.CreateSiteHidden` | internal/provision/service.go:380-460 | every error return of CreateSite before its sync leaves what the edge shows unchanged, whatever rows it leaves behind |
| `EdgeCoherence.CreateAccountHidden` | internal/provision/service.go:104-182 | a CreateAccount that publishes nothing and met no refused load leaves what the edge shows unchanged, with or without a first site |
| `EdgeCoherence.PublishedNames` | internal/provision/service.go:657-737 | a coherent configuration's client routes hold exactly the names of running or stopped sites of active accounts |
| `EdgeCoherence.PublishedAnswer` | internal/provision/service.go:666-701 | in a coherent configuration the client route of a visible domain gives its row's answer behind the guards |
| `EdgeCoherence.StatusWriteExactly` | internal/provision/service.go:526-585 | a site status written without a sync leaves the configuration coherent if and only if the change is not exposed: the site of an active account enters or leaves the table while it has domains, or flips between running and stopped with an upstream and a domain that does not redirect |
| `EdgeCoherence.CreateSiteMasksRefusal` | internal/provision/service.go:457-464 | when the edge refuses the load CreateSite reports success all the same unless reading the site back fails, and the configuration is then coherent if and only if no name was given or the account is not active |
| `PanelEffects.SuspendEffect` | internal/provision/service.go:282-298 | the account is suspended with its reason, its sites are stopped as far as the writes go through, none of its names is left in the routing table, and nothing else changes |
| `PanelEffects.SuspendedUnserved` | internal/provision/service.go:282-298 | an edge true to the database answers for a suspended account's name if and only if panel, webmail or another account's name covers it |
| `PanelEffects.UnsuspendEffect` | internal/provision/service.go:300-317 | the account is active without reason, each of its sites runs or has failed as its container started, and nothing else changes |
| `PanelEffects.TerminateEffect` | internal/provision/service.go:321-365 | exactly the account, its sites and their domains go |
| `PanelEffects.CreateAccountEffect` | internal/provision/service.go:104-182 | a new active, empty account and the first site's effect, or nothing, or the account alone when its removal failed |
| `PanelEffects.CreateSiteEffect` | internal/provision/service.go:380-502 | wherever creation stops there is one more site, provisioning, failed or running, and nothing else changes |
| `PanelEffects.CreateSiteNames` | internal/provision/service.go:440-464 | its name is taken on exactly when the directories are there and the name is well-formed and free; what is published and reported |
| `PanelEffects.StartEffect` | internal/provision/service.go:526-539 | the site's status, the report and the publication in every case, and that nothing else changes |
| `PanelEffects.StopEffect` | internal/provision/service.go:541-553 | the same for a stop |
| `PanelEffects.RedeployEffect` | internal/provision/service.go:506-524 | the same for a redeployment, with the new upstream |
| `PanelEffects.RestartEffect` | internal/provision/service.go:555-565 | the same for a restart, which never publishes |
| `PanelEffects.DeleteEffect` | internal/provision/service.go:567-585 | the site and exactly its domains go, or the site is left as being deleted |
| `PanelEffects.AddDomainEffect` | internal/provision/service.go:600-644 | one more name exactly when it is well-formed, allowed, free and its site exists; otherwise nothing |
| `PanelEffects.RemoveDomainEffect` | internal/provision/service.go:646-651 | exactly the one name goes |
| `PanelEffects.ReconcileEffect` | internal/worker/worker.go:139-188 | exactly the sites that Docker reports in another status change to it, as far as the writes go through, and a sync takes place exactly when there is one |
| `PanelEffects.UpdateSettingsEffect` | internal/api/handlers_system.go:91-139 | new settings stay exactly when they are valid and either accepted or not written back |
| `PanelEffects.MeterEffect` | internal/store/accounts.go:192-205 | only the two counters of the one account change |
| `EdgeEquivalence.TrueToBoth` | internal/provision/service.go:657-737 | a configuration coherent with one valid database is coherent with another if and only if both show the same names, with the same guards and answers, grouped into the same routes |
| `EdgeEquivalence.CoherentExists` | internal/provision/service.go:657-737 | every valid database has a coherent configuration |
| `EdgeEquivalence.UnpublishedExactly` | internal/provision/service.go:104-652 | for every operation whose load was refused or whose sync never came, with whatever error, the configuration in place stays coherent if and only if the edge cannot tell what the operation wrote |
| `EdgeEquivalence.StatusOperations` | internal/provision/service.go:506-585 | RestartSite, a failed start, a failed redeploy and a failed deletion publish nothing, and the edge goes stale if and only if the status they leave is exposed |
| `EdgeEquivalence.RestartGoesStale` | internal/provision/service.go:555-565 | one running site with one name: after a failed restart its configuration is no longer coherent |
| `EdgeEquivalence.RunsExactly` | internal/provision/service.go:104-737 | over any run of any operations, failures and refusals included, the configuration is coherent at a point if and only if the edge cannot tell the database there from the one last published |
| `EdgeEquivalence.SettingsExactly` | internal/api/handlers_system.go:106-121 | changed settings leave a coherent configuration coherent if and only if they give the same guards (the firewall off in both, or on in both with the same effective rate limit) or no name is visible |
| `PanelService.Panel.RoutingTable` | internal/store/sites.go:263-287 | the row loop and the order give the rows of running or stopped sites of active accounts, once each, by name |
| `PanelService.Panel.SyncCaddy` | internal/provision/service.go:657-737 | an accepted load makes the published configuration coherent with the database; a refused one changes nothing |
| `PanelService.Panel.WriteStatuses` | internal/store/sites.go:141-153 | the per-site updates together set exactly the given statuses |
| `PanelService.Panel.CreateAccount` | internal/provision/service.go:104-182 | a refused input changes nothing; unprepared directories remove the new account again unless that deletion fails; otherwise success is reported whatever becomes of the first site created on the way |
| `PanelService.Panel.SuspendAccount` | internal/provision/service.go:282-298 | status and reason are written first; after the site list is read, the writes that went through mark sites stopped, and the sync decides the result |
| `PanelService.Panel.UnsuspendAccount` | internal/provision/service.go:300-317 | the account is active with no reason; each site becomes running or failed by its start, and the sync decides the result |
| `PanelService.Panel.TerminateAccount` | internal/provision/service.go:321-365 | the account and, by cascade, its sites and their domains are gone before the sync |
| `PanelService.Panel.CreateSite` | internal/provision/service.go:380-502 | each failure leaves exactly the rows written so far, a refused load is not reported, and the final reading back decides the result |
| `PanelService.Panel.StartSite` | internal/provision/service.go:526-539 | running and synced; or an error return without a sync, which marks the site failed when Docker refused and that write went through |
| `PanelService.Panel.StopSite` | internal/provision/service.go:541-553 | stopped and synced, or nothing changed |
| `PanelService.Panel.RedeploySite` | internal/provision/service.go:506-524 | new upstream, running and synced, or marked failed (if that write went through) without a sync |
| `PanelService.Panel.RestartSite` | internal/provision/service.go:555-565 | running or failed, if that write went through, and never synced |
| `PanelService.Panel.DeleteSite` | internal/provision/service.go:567-585 | marked deleting (an ignored write) and left so when the removal fails; otherwise row and domains gone, and synced |
| `PanelService.Panel.AddDomain` | internal/provision/service.go:600-644 | a checked, allowed, free name is added and synced; every refusal changes nothing |
| `PanelService.Panel.RemoveDomain` | internal/provision/service.go:646-651 | exactly the named domain is gone, and synced |
| `PanelService.Panel.Reconcile` | internal/worker/worker.go:139-188 | exactly the drifted sites whose write went through change, and a sync happens if and only if some site drifted |
| `PanelService.Panel.UpdateSettings` | internal/api/handlers_system.go:91-139 | invalid values change nothing; accepted ones are stored and published; refused ones are rolled back unless that write fails |
| `PanelService.Panel.RecordUsage` | internal/store/accounts.go:192-205 | exactly the account's two usage counters change; an unknown account is no error |
| `EdgeInterleaving.QuietIsCoherent` | internal/provision/service.go:282-737 | over every interleaving of any operations' writes with their syncs, each reading the table and then the settings under the mutex: whenever every operation has had its own sync accepted after its last visible write, or the reads of any accepted sync came after all of them, the published configuration is coherent |
| `EdgeInterleaving.OwingExactly` | internal/provision/service.go:282-737 | an operation still owes a sync if and only if some visible write of its own has no load of its own after it |
| `EdgeInterleaving.WithoutMutex` | internal/provision/service.go:657-661 | without the mutex, for any visible write, a run in which every sync was accepted ends with the configuration from before the write, coherent if and only if the edge cannot tell the write |
| `EdgeInterleaving.InterleavedExactly` | internal/provision/service.go:104-737 | over every interleaving of any writes, with or without the mutex and whatever loads are refused or writes taken back, the configuration ends coherent if and only if the edge cannot tell the database from what the last accepted load had read |
| `EdgeInterleaving.SettingsRunsExactly` | internal/api/handlers_system.go:106-121 | over every interleaving of settings changes, syncs and rollbacks the edge ends coherent if and only if the settings last published give the guards of the stored ones or nothing is visible |
| `EdgeInterleaving.RollbackRace` | internal/api/handlers_system.go:111-121 | for any settings with other guards, when their own load fails for a passing reason, a sync of another operation before the rollback publishes them, and after the rollback the edge is right only if nothing is visible |
| `Bandwidth.Hosting.SampleTraffic` | internal/worker/worker.go:282-307 | the accumulator is the sum of the deltas of the running, readable sites, and exactly the saved readings become baselines |
| `Bandwidth.Hosting.EnforceQuota` | internal/worker/worker.go:248-349 | one tick is reset, reactivation, truncated addition and suspension in that order, with every failed write accounted for |
| `Bandwidth.OneSiteMore` | internal/worker/worker.go:283-307 | what each site adds to the sum and which baseline it is left with, by its counters alone; a site that does not run adds nothing |
| `Bandwidth.ActiveExactly` | internal/worker/worker.go:309-347 | after an error-free tick an active account has this month's usage and is suspended, with the automatic reason, if and only if a quota is set and reached |
| `Bandwidth.ActiveWithErrors` | internal/worker/worker.go:309-347 | the same with every combination of failed writes: never suspended below the quota |
| `Bandwidth.SuspendedWithErrors` | internal/worker/worker.go:309-347 | a suspended account is lifted if and only if the reason is the automatic one, the month turned and the writes went through, unless the quota is reached again at once |
| `Bandwidth.ActiveIsBelowQuota` | internal/worker/worker.go:338-347 | after an error-free tick an active account with a quota is below it |
| `Bandwidth.NewMonthReactivates` | internal/worker/worker.go:309-347 | the first tick of a month lifts an automatic suspension if and only if that tick's own traffic stays below the quota |
| `Bandwidth.OtherSuspensionsStay` | internal/worker/worker.go:309-347 | no run of ticks, with or without errors, lifts or relabels a suspension of another reason |
| `Bandwidth.SuspensionLastsTheMonth` | internal/worker/worker.go:255-347 | within its month no tick lifts a suspension, and a terminated account never changes status, reason or month |
| `Bandwidth.SampleBalance` | internal/worker/worker.go:282-307 | what one sampling credits and what the next would credit add up to what was pending before |
| `Bandwidth.TruncationBound` | internal/worker/worker.go:309-336 | over every run, failed writes included, n additions with sum S since the last reset leave the stored integer U with S - n <= U <= S |
| `Bandwidth.NeverOverCredited` | internal/worker/worker.go:282-336 | over every interleaving of traffic, restarts, new sites and ticks with saved baselines, the deltas, and those added since the last reset, never exceed the traffic that flowed |
| `Bandwidth.NeverOverCharged` | internal/worker/worker.go:282-336 | so with saved baselines the stored counter never exceeds the traffic that flowed |
| `Bandwidth.DeltaIsExact` | internal/worker/worker.go:282-307 | between two readings of a site without a restart the delta is exactly the traffic that flowed |
| `Bandwidth.Ledger` | internal/worker/worker.go:282-307 | over every run, baselines saved or not: credited, pending and forgotten traffic make up exactly what flowed and what was counted again; a restart forgets the uncredited part, a counter that climbs past its old baseline forgets that baseline, an unsaved reading is counted again |
| `Bandwidth.OverCreditedExactly` | internal/worker/worker.go:282-307 | over every run the deltas stay within the real traffic if and only if what was counted again is at most what was forgotten or is pending |
| `Bandwidth.NothingLost` | internal/worker/worker.go:282-307 | without restarts and with saved baselines all traffic is credited or pending |
| `Bandwidth.FailedSaveCountsTwice` | internal/worker/worker.go:300-307 | an input that breaks the bound: one unsaved reading, then another, credits the same traffic twice |
| `RateLimiting.FilterInPlace` | internal/api/middleware.go:184-190 | appending to the same backing array while reading it loses and overwrites nothing: the prefix holds the times after the cutoff, in order |
| `RateLimiting.Append` | internal/api/middleware.go:196-197 | in place or reallocated, the slice is the old one and the new time |
| `RateLimiting.RateLimiter.Allow` | internal/api/middleware.go:171-199 | the object with shared arrays and map collection behaves as the step on plain values |
| `RateLimiting.RateLimiter.Collect` | internal/api/middleware.go:174-183 | exactly the keys that are empty or whose last time is before the cutoff go |
| `RateLimiting.RateLimiter.Admit` | internal/api/middleware.go:184-199 | the key keeps its recent times, plus this call if fewer than the limit remain; other keys are untouched |
| `RateLimiting.CollectionExactly` | internal/api/middleware.go:178-185 | a collection comes after more than five windows and drops exactly the keys without times or with a last time before the window |
| `RateLimiting.CallExactly` | internal/api/middleware.go:187-198 | a call keeps the key's times of the window in order and adds its own exactly when fewer than the limit are left |
| `RateLimiting.DecisionsRefine` | internal/api/middleware.go:171-199 | with a clock that does not go back every decision is "fewer than limit accepted calls of this key in (now - window, now]" over the whole history |
| `RateLimiting.WindowBound` | internal/api/middleware.go:171-199 | any half-open window of the configured length, wherever it ends, holds at most limit accepted calls of a key |
| `RateLimiting.KeysAreIndependent` | internal/api/middleware.go:171-199 | calls of other keys never influence what a key is granted |
| `RateLimiting.StepLinked` | internal/api/middleware.go:171-199 | one call keeps the link between state and history: each key's remembered times are a suffix of its accepted calls and the rest is older than the window |
| `Sessions.SessionStore.CreateSession` | internal/store/store.go:170-181 | a fresh token becomes a live row; a token already stored is refused and changes nothing |
| `Sessions.SessionStore.ConsumeSession` | internal/store/store.go:184-194 | exactly a live token yields its user, and is revoked by the same statement |
| `Sessions.SessionStore.RevokeUserSessions` | internal/store/store.go:196-200 | all sessions of the user, and of nobody else, are revoked |
| `Sessions.SessionStore.PurgeExpiredSessions` | internal/store/store.go:202-209 | exactly the rows expired for more than a week go, and their number is returned |
| `Sessions.SessionStore.HandleRefresh` | internal/api/handlers_auth.go:240-274 | rotation: a live token of an active user is traded for a live one of the same user, the posted token is dead in every case, and no other token's standing changes |
| `Sessions.RevokedExactly` | internal/store/store.go:196-200 | a revocation ends exactly the user's sessions, at every instant |
| `Sessions.UsersAreIndependent` | internal/store/store.go:184-200 | over every interleaving, what other users do, their logouts in particular, changes the outcome of none of a user's refreshes |
| `Sessions.IssuedForConsumed` | internal/api/handlers_auth.go:252-267 | over every interleaving a refresh issues a token only after it consumed a live one of the same user and then found the user active; the token lives exactly for the configured time |
| `Sessions.ConsumedOnce` | internal/store/store.go:184-194 | over every interleaving of the atomic statements a token is consumed successfully at most once |
| `Sessions.NothingSurvivesRevocation` | internal/store/store.go:184-200 | a token consumed after its user's revocation was created after it |
| `Sessions.DeadForever` | internal/store/store.go:170-209 | a spent, revoked or purged token never comes back |
| `Sessions.LogoutIsFinal` | internal/api/handlers_auth.go:276-287 | when no refresh of the user is in progress and no token of theirs is alive, none is ever live again until the next login |
| `Sessions.LogoutWithoutRefresh` | internal/api/handlers_auth.go:276-287 | a logout reaches that state if and only if no refresh of the user is between its steps |
| `Sessions.LogoutRace` | internal/api/handlers_auth.go:240-287 | any refresh in progress can finish after the logout and leave a live session |
| `Sessions.LogoutExactly` | internal/api/handlers_auth.go:240-287 | no continuation without a login ever gives the user a live token again if and only if the logout finds no refresh of theirs between its steps |
| `Sessions.PurgeIsInvisible` | internal/worker/worker.go:352-372 | with a clock that does not go back, removing all purges from a run changes the outcome of no refresh |
| `WebClient.Api.TryRefresh` | web/src/api.ts:36-64 | joins the refresh in flight, gives up without a token, or posts the stored token and is then the one in flight |
| `WebClient.Api.HandleReply` | web/src/api.ts:84-92 | only a 401 with the retry left refreshes; everything else ends the request |
| `WebClient.Api.HandleRefreshReply` | web/src/api.ts:41-62 | a renewal stores the successor, a refusal clears the tokens, a network failure keeps them, and all waiters wake with one result |
| `WebClient.Api.ResumeRequest` | web/src/api.ts:84-92 | a woken request is sent once more without a retry, or ends and clears the tokens |
| `WebClient.ReplyEffect` | web/src/api.ts:80-103 | what a reply does to the request, the refresh and the posts, by its status and retry alone, and that other requests are untouched |
| `WebClient.RefreshEffect` | web/src/api.ts:41-62 | at the end of the refresh exactly the waiting requests learn its result, and the tokens are replaced, cleared or kept |
| `WebClient.WakeEffect` | web/src/api.ts:84-92 | a woken request is sent again for the last time after a renewal, and otherwise ends with the tokens cleared |
| `WebClient.WaiterGets` | web/src/api.ts:36-92 | from every good state a request that waits when the refresh ends is sent a second time, with the successor stored, if and only if it was a renewal, and otherwise ends with the tokens cleared |
| `WebClient.AlwaysGood` | web/src/api.ts:12-104 | the joint invariant of browser and rotating server holds after every interleaving |
| `WebClient.SingleFlightBoundedRetry` | web/src/api.ts:34-89 | at most one refresh is in flight, and no request is sent more than twice |
| `WebClient.PostsAreCurrent` | web/src/api.ts:36-64 | a token whose successor was stored is never posted again, and a posted token is one the server has already consumed if and only if the reply to the post that consumed it got lost |
| `WebClient.RefusalIsTheServers` | internal/api/handlers_auth.go:252-273 | a delivered answer renews the token if and only if no reply to a consuming post of it got lost, its session is live, and the user check and the issue succeed |
| `WebClient.LostRenewal` | web/src/api.ts:53-61 | after the reply to a consuming post is lost the client keeps a spent token; every request whose 401 comes next with its retry left posts it again, and is refused |
| `WebClient.SpentTokenPosted` | web/src/api.ts:36-89 | such a run exists: two requests, and the reply to the first one's renewal is lost |
| `Totp.OffsetInBounds` | internal/auth/totp.go:49-54 | masking the last byte is the remainder by 16, so the four reads stay inside any 20-byte hash |
| `Totp.TruncateValue` | internal/auth/totp.go:49-54 | masks, uint32 shifts and ors give the big-endian 31-bit number at the offset, as section 5.3 of RFC 4226 asks |
| `Totp.CounterValue` | internal/auth/totp.go:41-44 | the counter bytes hashed are the big-endian step |
| `Totp.CodeValue` | internal/auth/totp.go:36-55 | the six characters are the decimal value of the truncation mod 10^6, leading zeros included |
| `Totp.ValidateTOTP` | internal/auth/totp.go:61-80 | the early-exit loop is the search over the current step and the one before, skipping used steps and ending at an undecodable secret |
| `Totp.Validated` | internal/auth/totp.go:61-80 | an accepted step is unused, current or the one before, and its code is the trimmed text given |
| `Totp.ValidatedExactly` | internal/auth/totp.go:61-80 | with a decodable secret and six characters the answer is the current step if it is acceptable, else the one before if it is, else a refusal |
| `Totp.CodeExactly` | internal/auth/totp.go:36-55 | the code computed for a 64-bit step is the one text that the keyed hash of its eight big-endian bytes determines |
| `Totp.CheckExactly` | internal/auth/totp.go:61-80 | with a decodable secret a code is accepted for a step if and only if, trimmed, it is the right one for the current 30-second step, or else for the one before, and the step comes after the last one used |
| `Totp.OperationEffects` | internal/store/store.go:123-149 | what setup, confirmation, verification and removal leave of secret, activation and last step |
| `Totp.ConfirmedThenVerified` | internal/api/handlers_auth.go:99-203 | after an accepted confirmation a code that is right for a later step verifies |
| `Totp.NothingBeforeConfirm` | internal/api/handlers_auth.go:99-203 | no code verifies between a setup and its confirmation |
| `Totp.Account.SetupTotp` | internal/api/handlers_auth.go:156-171 | a new secret, not enabled, with a fresh replay guard |
| `Totp.Account.ConfirmTotp` | internal/api/handlers_auth.go:177-203 | succeeds exactly on an accepted step, which is recorded with the activation |
| `Totp.Account.VerifyTotp` | internal/api/handlers_auth.go:99-144 | succeeds exactly on an accepted step of an enabled account, which is recorded unless that write fails |
| `Totp.Account.DisableTotp` | internal/api/handlers_auth.go:209-234 | only the password removes the secret and resets the guard |
| `Totp.AcceptedStepIsCurrent` | internal/auth/totp.go:61-80 | in any run an accepted step is the current one or the one before, unused, and its code was given |
| `Totp.AcceptedStepsIncrease` | internal/store/store.go:130-148 | between secret changes accepted steps strictly increase over any run with recorded steps (section 5.2 of RFC 6238) |
| `Totp.ReplayExactly` | internal/api/handlers_auth.go:125-138 | the same code is accepted again at the same time if and only if the first acceptance was not recorded |
| `Cron.PartMatches` | internal/worker/cron.go:56-103 | the reassigning code computes the membership of the value in the progression the text parses to, or the error |
| `Cron.ParsePart` | internal/worker/cron.go:56-103 | a part that parses is a non-empty progression inside the field's bounds with a positive step |
| `Cron.ParseExactly` | internal/worker/cron.go:56-103 | the element parser accepts exactly its grammar, with exactly its meaning: star, number or range of decimal numerals, a positive step after the first slash, inside the bounds, a single 7 as Sunday |
| `Cron.FieldBounds` | internal/worker/cron.go:24-28 | the bounds of minute, hour, day, month and weekday |
| `Strings.AtoiExactly` | internal/worker/cron.go:65-92 | decimal numerals are an optional sign, digits, and a value of 64 bits |
| `Strings.FieldsSpaced` | internal/worker/cron.go:14 | the fields are found whatever white space stands around and between them |
| `Cron.HitsDenotes` | internal/worker/cron.go:99-103 | the remainder test is membership in {lo, lo+step, ... <= hi} |
| `Cron.FieldMatches` | internal/worker/cron.go:43-54 | the scan stops at the first part that hits or is malformed |
| `Cron.Matches` | internal/worker/cron.go:13-41 | five fields or an error; the scan stops at the first field that fails or is malformed |
| `Cron.MatchesPrinted` | internal/worker/cron.go:13-103 | evaluating any printed well-formed expression succeeds, and says yes if and only if each of the five calendar values lies in the union of its field's progressions |
| `Cron.ParsePrintedElem` | internal/worker/cron.go:56-103 | each printed `*`, number, range or step parses back to what it stands for; a single 7 is Sunday |
| `Cron.PartsExactly` | internal/worker/cron.go:43-54 | for arbitrary text: yes, error and no are each characterised by the first part that is malformed or names the value |
| `Cron.EarlyExitHides` | internal/worker/cron.go:43-54 | for any two texts joined by a comma: a yes or an error of the first hides the second, malformed or not, and after a no the second alone decides |
| `Cron.OrderMatters` | internal/worker/cron.go:43-54 | `*,x` matches and `x,*` is an error |
| `Cron.MatchExactly` | internal/worker/cron.go:13-41 | for any text: an error without five fields, yes if and only if all fields say yes, and otherwise the first field that does not decides between no and error, so a malformed field behind a no goes unread |
| `Cron.RunDueJobs` | internal/worker/worker.go:100-135 | exactly the jobs of running sites whose schedule evaluates to yes are launched, in order; a malformed one stops no other |
| `Cron.DueExactly` | internal/worker/worker.go:106-117 | a job is launched if and only if its site runs and its schedule evaluates to yes |
| `Cron.DueInOrder` | internal/worker/worker.go:106-117 | jobs are launched in the order of the list |
| `CronLoop.Loop` | internal/worker/worker.go:78-98 | the loop with its `next` variable evaluates at the instants the recurrence gives |
| `CronLoop.TimerExactly` | internal/worker/worker.go:78-98 | in nanoseconds: the first timer is set for the next full minute, every later one for the next nominal minute or, when that has passed, one second from now |
| `CronLoop.NeverEarly` | internal/worker/worker.go:78-98 | counting from 0, the k-th evaluation never comes before the first full minute plus k minutes |
| `CronLoop.EvaluatedLate` | internal/worker/worker.go:78-98 | each evaluation is late by its own timer lag plus what earlier beats overran, computed from the delays alone |
| `CronLoop.OncePerMinuteExactly` | internal/worker/worker.go:78-98 | each minute is evaluated exactly once, in order, if and only if that accumulated lateness never reaches a minute |
| `CronLoop.StallExactly` | internal/worker/worker.go:78-98 | after a stall of W >= 1 min the minutes before (W + 1 s) / 1 min are skipped, the (W - 1 s) / 59 s late evaluations fall in all the minutes from there to that number, and then each minute has its own again; so as many evaluations are repeated as minutes were skipped |
| `CronLoop.StallRepeatsAMinute` | internal/worker/worker.go:78-98 | a stall of 130 seconds skips one minute and evaluates the next one twice |
| `Firewall.ParseStatus` | internal/hostctl/parse.go:39-67 | the loop with its seen-set is the fold of the classified lines, the last GLOBAL line deciding the flag |
| `Firewall.FlagExactly` | internal/hostctl/parse.go:47-51 | the flag is known if and only if a GLOBAL line came, and is what the last one says |
| `Firewall.PaddedGlobal` | internal/hostctl/parse.go:47-51 | white space around the word after GLOBAL does not matter |
| `Firewall.MakeRuleExactly` | internal/hostctl/parse.go:91-105 | a rule is made exactly of a valid port and protocol and one of the two actions; without an origin it is for everyone |
| `Firewall.PaddedRule` | internal/hostctl/parse.go:71-83 | white space around the first three fields does not matter, and the comment is taken as it is |
| `Firewall.OlderFormat` | internal/hostctl/parse.go:83-89 | the older format without tabs reads as a rule for everyone |
| `Firewall.NoOrigin` | internal/hostctl/parse.go:102-104 | a rule with tabs but without origin is for everyone |
| `Firewall.KeyInjective` | internal/hostctl/parse.go:59 | the string key is equal for two rules if and only if port, protocol, action and origin are, although origins may hold slashes |
| `Firewall.ParsePrinted` | internal/hostctl/parse.go:69-106 | a printed rule line parses to the rule, also without its last tab |
| `Firewall.ClassifyPrinted` | internal/hostctl/parse.go:43-63 | a printed rule is read as itself, its comment without trailing carriage returns, or without trailing white space where the line end was trimmed |
| `Firewall.TrimPrinted` | internal/hostctl/client.go:109 | trimming the whole reply touches only the end of its last line |
| `Firewall.StatusRoundTrip` | install.sh:442-574 | parsing the printed status after the outer trim returns the flag and the rules, first occurrence per (port, protocol, action, origin), in order, with nothing lost but white space at comment ends |
| `Firewall.RoundTripExactly` | internal/hostctl/client.go:109 | the panel shows exactly the printed flag and first rules if and only if no rule that is the first of its key ends its comment in a carriage return, or, on the last line, in white space |
| `Firewall.CommentFrays` | internal/hostctl/client.go:109 | a single rule whose comment is `x` and a blank is shown with the comment `x` |
| `Shell.QuoteRuns` | internal/provision/git.go:169-171 | inside any line the quoted text adds exactly the value to the word being read |
| `Shell.QuoteRoundTrip` | internal/provision/git.go:169-171 | the quoted text of any value is one word, the value (sections 2.2.1 and 2.2.2 of the POSIX Shell Command Language) |
| `Shell.CloneTokens` | internal/provision/git.go:124-128 | for any branch and URL the clone line is the two intended commands with the values as whole arguments |
| `Shell.PullTokens` | internal/provision/git.go:137-140 | for any branch the update line is the three intended commands |
| `Shell.CommandsExactly` | internal/provision/git.go:124-140 | the words of both command lines, one by one |
| `WafLog.ReverseInPlace` | internal/store/resources.go:353-355 | the swap loop reverses the slice |
| `WafLog.PageSizes` | internal/store/resources.go:304-365 | limits from 1 to 500 are honoured and anything else gets the default |
| `WafLog.ListBefore` | internal/store/resources.go:330-357 | the newest rows below the id, at most a page, in ascending order |
| `WafLog.ListLatest` | internal/store/resources.go:362-387 | the newest rows, at most a page, in ascending order |
| `WafLog.BelowIsPrefix` | internal/store/resources.go:330-336 | with increasing ids the rows below a block's id are exactly those before it |
| `WafLog.AboveIsSuffix` | internal/store/resources.go:303-309 | with increasing ids the rows above the last seen id are exactly those after it |
| `WafLog.Browse` | web/src/pages/System.tsx:635-669 | while blocks keep arriving, the latest page and then "before the first id" pages terminate and cover the log as it was at the first request once, in ascending consecutive segments that are full except the oldest |
| `WafLog.Poll` | internal/api/handlers_security.go:333-349 | one tick sends the next blocks after the cursor and moves it to the last one sent |
| `WafLog.Stream` | internal/api/handlers_security.go:306-351 | on an append-only log the stream continues it from the opening instant in order, without gaps or repeats, and has caught up whenever the last poll was not full |

## Left out

* Docker, SSH, HTTP, PostgreSQL, MySQL, SFTP and mail calls: an SQL statement is one atomic update of a map and every outside answer is a parameter of the operation.
* JSON of the Caddy handlers, headers, the HTML of the 503 page, and marshalling errors of `Build`: a handler is a value.
* Computation of host names and ports from URLs (`normalizeDomain`, `PanelHost`, `WebmailHost`, `portOf`): hosts are inputs.
* Plan limits and input validation other than the name pattern: one `allowed` answer per operation.
* Panel operations follow one another in EdgeCoherence and PanelService; EdgeInterleaving lets them overlap, with each operation's statements as arbitrary writes.
* Owner creation and the welcome mail of `CreateAccount`, the account's own unique columns, and the deletion of the owner after a failure.
* SQL failures before an operation has written anything: they leave database and edge as they were, like an unknown id, and are no separate case.
* The database's collation: the routing table is ordered by code points, like the edge's own sort.
* EdgeSync.PublishedMeaning: hosts covered by a wildcard other than themselves are excluded; LeastMatchServes and MeaningExactly say what happens to them.
* Caddy's host matching beyond an exact name or one leading wildcard label.
* The outer loop over accounts and the disk measurement in `enforceQuotas`: one account is modelled.
* Floating-point rounding and time zones: megabytes are reals, instants are integers, calendar fields are inputs of the cron evaluator.
* Cryptography: the keyed hash with its base32 decoding is a parameter, tokens stand for their hashes, new tokens are fresh.
* Bandwidth.DeltaIsExact: is about runs without a restart of the site; Bandwidth.Ledger accounts for the rest.
* Concurrent two-factor verifications of one user: read, validate and record follow one another.
* Deletion of users with the cascade on sessions, and browser tabs that copy session storage.
* Launching cron jobs, recording their results, and a failed listing of jobs.
* Extraction of rule fields from ufw and firewalld output: the printed lines are modelled, with protocol tcp or udp, a port of at most five digits, and an origin without white space.
* The regular-expression engine: the patterns are data with their usual meaning.
* Running git, composer and npm, and the rest of the deployment: only the quoted command lines are modelled.
* WafLog.Stream: needs an append-only log; rows committed out of order or pruned while the stream is open, and failed polls, are not modelled.
* WafLog.Browse: blocks may arrive while the pages are read; rows pruned or committed out of order in between are not modelled.
* File manager, mail, backups, audit log, user pages and the rest of the installer: they would add only easy members.
