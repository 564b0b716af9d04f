/** The edge configuration compiler: caddyapi.Build, dedupe and the first-match meaning of
    the route list it produces. */
module CaddyConfig {
  import opened Strings
  import opened Wrappers

  datatype Handler =
    | Proxy(upstream: string, streaming: bool)
    | Redirect(location: string)
    | Static503(message: string)
    | RateLimit(perMinute: int)
    | Waf(directives: string)

  datatype Route = Route(hosts: seq<string>, handle: seq<Handler>, terminal: bool)

  datatype SiteRoute = SiteRoute(hosts: seq<string>, upstream: string, redirectTo: string,
                                 forceHTTPS: bool, offline: bool)

  datatype BuildOptions = BuildOptions(
    acmeEmail: string, onDemandAskURL: string, logLevel: string, listen: seq<string>,
    panelHost: string, panelUpstream: string, webmailHost: string, webmailUpstream: string,
    mailHostname: string, maintenanceMessage: string,
    wafEnabled: bool, corazaDirectives: string, rateLimitPerMinute: int)

  datatype TlsPolicy = TlsPolicy(subjects: seq<string>, acmeEmail: Option<string>, onDemand: bool)
  datatype Tls = Tls(policies: seq<TlsPolicy>, askURL: Option<string>, automate: seq<string>)
  datatype Config = Config(listen: seq<string>, logLevel: string, routes: seq<Route>, tls: Option<Tls>)

  // ---- One route --------------------------------------------------------------------

  function TrimSlashes(s: string): string {
    if s != "" && s[|s| - 1] == '/' then TrimSlashes(s[..|s| - 1]) else s
  }

  function RedirectLocation(target: string): string {
    var url := if HasPrefix(target, "http://") || HasPrefix(target, "https://") then target
               else "https://" + target;
    TrimSlashes(url) + "{http.request.uri}"
  }

  /** The handler that answers for a client route once the WAF has let the request through. */
  function Answer(r: SiteRoute, opt: BuildOptions): Handler {
    if r.redirectTo != "" then Redirect(RedirectLocation(r.redirectTo))
    else if r.offline || r.upstream == "" then Static503(opt.maintenanceMessage)
    else Proxy(r.upstream, false)
  }

  function Guards(opt: BuildOptions): seq<Handler> {
    if opt.wafEnabled then
      [RateLimit(if opt.rateLimitPerMinute <= 0 then 240 else opt.rateLimitPerMinute),
       Waf(opt.corazaDirectives)]
    else []
  }

  function Render(r: SiteRoute, opt: BuildOptions): Route {
    Route(r.hosts, Guards(opt) + [Answer(r, opt)], true)
  }

  function Map<A, B>(xs: seq<A>, f: A -> B): (out: seq<B>)
    ensures |out| == |xs|
    ensures forall i :: 0 <= i < |xs| ==> out[i] == f(xs[i])
  {
    seq(|xs|, i requires 0 <= i < |xs| => f(xs[i]))
  }

  function Renderer(opt: BuildOptions): SiteRoute -> Route { r => Render(r, opt) }

  function RenderAll(rs: seq<SiteRoute>, opt: BuildOptions): seq<Route> { Map(rs, Renderer(opt)) }

  // ---- The specification of Build ---------------------------------------------------

  function Defaulted(opt: BuildOptions): BuildOptions {
    opt.(listen := if opt.listen == [] then [":80", ":443"] else opt.listen,
         maintenanceMessage := if opt.maintenanceMessage == ""
                               then "Este sitio está temporalmente detenido." else opt.maintenanceMessage,
         logLevel := if opt.logLevel == "" then "INFO" else opt.logLevel)
  }

  function FixedRoutes(opt: BuildOptions): seq<Route> {
    (if opt.panelHost != "" && opt.panelUpstream != ""
     then [Route([opt.panelHost], [Proxy(opt.panelUpstream, true)], true)] else [])
    + (if opt.webmailHost != "" && opt.webmailUpstream != ""
       then [Route([opt.webmailHost], [Proxy(opt.webmailUpstream, true)], true)] else [])
  }

  /** Routes without hosts are not published. */
  function Published(rs: seq<Route>): seq<Route> {
    if rs == [] then []
    else
      var r := rs[|rs| - 1];
      Published(rs[..|rs| - 1]) + if r.hosts == [] then [] else [r]
  }

  function AllHosts(rs: seq<Route>): seq<string> {
    if rs == [] then [] else AllHosts(rs[..|rs| - 1]) + rs[|rs| - 1].hosts
  }

  function Insert(names: seq<string>, x: string): (out: seq<string>)
    requires StrictlySorted(names)
    ensures StrictlySorted(out)
    ensures forall y :: y in out <==> y in names || y == x
  {
    if names == [] then [x]
    else if names[0] == x then names
    else if Less(x, names[0]) then
      assert forall j :: 0 < j < |names| ==> Less(x, names[j]) by {
        forall j | 0 < j < |names| ensures Less(x, names[j]) { LessTransitive(x, names[0], names[j]); }
      }
      [x] + names
    else
      LessTotal(x, names[0]);
      var rest := Insert(names[1..], x);
      assert forall j :: 0 <= j < |rest| ==> Less(names[0], rest[j]) by {
        forall j | 0 <= j < |rest| ensures Less(names[0], rest[j]) {
          assert rest[j] in rest;
          assert forall y :: y in names[1..] ==> Less(names[0], y);
        }
      }
      [names[0]] + rest
  }

  /** The non-empty names of a list, once each, in increasing order. */
  function Canonical(xs: seq<string>): (out: seq<string>)
    ensures StrictlySorted(out)
    ensures forall y :: y in out <==> y in xs && y != ""
  {
    if xs == [] then []
    else
      var x := xs[|xs| - 1];
      assert xs == xs[..|xs| - 1] + [x];
      var out := Canonical(xs[..|xs| - 1]);
      if x == "" then out else Insert(out, x)
  }

  function TlsApp(subjects: seq<string>, opt: BuildOptions): Option<Tls> {
    if opt.acmeEmail == "" && opt.onDemandAskURL == "" then None
    else
      var issuer := if opt.acmeEmail != "" then Some(opt.acmeEmail) else None;
      var ask := if opt.onDemandAskURL != "" then Some(opt.onDemandAskURL) else None;
      Some(Tls((if subjects != [] then [TlsPolicy(subjects, issuer, false)] else [])
               + (if ask.Some? then [TlsPolicy([], None, true)] else []),
               ask, if opt.mailHostname != "" then [opt.mailHostname] else []))
  }

  function FixedSubjects(opt: BuildOptions): seq<string> {
    (if opt.panelHost != "" then [opt.panelHost] else [])
    + (if opt.webmailHost != "" then [opt.webmailHost] else [])
    + (if opt.mailHostname != "" then [opt.mailHostname] else [])
  }

  /** The configuration for client routes already in their final order. */
  function Assemble(sorted: seq<Route>, opt: BuildOptions): Config {
    Config(opt.listen, opt.logLevel, FixedRoutes(opt) + Published(sorted),
           TlsApp(Canonical(FixedSubjects(opt) + AllHosts(sorted)), opt))
  }

  predicate InOrder(rs: seq<Route>) {
    forall i, j :: 0 <= i < j < |rs| ==> !Less(Join(rs[j].hosts, ','), Join(rs[i].hosts, ','))
  }

  /** `cfg` is a result Build may return for client routes that render to `rs`: sort.Slice
      is not stable, so every arrangement without inversions counts. */
  ghost predicate Compiles(rs: seq<Route>, opt: BuildOptions, cfg: Config) {
    exists sorted: seq<Route> ::
      multiset(sorted) == multiset(rs) && InOrder(sorted) && cfg == Assemble(sorted, Defaulted(opt))
  }

  // ---- The code ---------------------------------------------------------------------

  lemma NotLessTransitive(a: string, b: string, c: string)
    requires !Less(b, a) && !Less(c, b)
    ensures !Less(c, a)
  {
    LessTotal(a, b);
    LessTotal(b, c);
    if Less(c, a) {
      if Less(a, b) { LessTransitive(c, a, b); }
    }
  }

  ghost predicate KeyOrder<T>(ys: seq<T>, key: T -> string) {
    forall i, j :: 0 <= i < j < |ys| ==> !Less(key(ys[j]), key(ys[i]))
  }

  /** sort.Slice and sort.Strings: a rearrangement without inversions, and nothing more. */
  method SortBy<T>(xs: seq<T>, key: T -> string) returns (ys: seq<T>)
    ensures multiset(ys) == multiset(xs) && KeyOrder(ys, key)
  {
    ys := [];
    for n := 0 to |xs|
      invariant multiset(ys) == multiset(xs[..n]) && KeyOrder(ys, key)
    {
      assert xs[..n + 1] == xs[..n] + [xs[n]];
      ys := InsertBy(ys, xs[n], key);
    }
    assert xs[..|xs|] == xs;
  }

  method InsertBy<T>(ys: seq<T>, x: T, key: T -> string) returns (zs: seq<T>)
    requires KeyOrder(ys, key)
    ensures multiset(zs) == multiset(ys) + multiset{x} && KeyOrder(zs, key)
  {
    var k := |ys|;
    while k > 0 && Less(key(x), key(ys[k - 1]))
      invariant 0 <= k <= |ys|
      invariant forall j :: k <= j < |ys| ==> Less(key(x), key(ys[j]))
    {
      k := k - 1;
    }
    assert ys == ys[..k] + ys[k..];
    zs := ys[..k] + [x] + ys[k..];
    InsertedInOrder(ys, x, key, k);
  }

  lemma InsertedInOrder<T>(ys: seq<T>, x: T, key: T -> string, k: nat)
    requires KeyOrder(ys, key) && k <= |ys| && (k > 0 ==> !Less(key(x), key(ys[k - 1])))
    requires forall j :: k <= j < |ys| ==> Less(key(x), key(ys[j]))
    ensures KeyOrder(ys[..k] + [x] + ys[k..], key)
  {
    var zs := ys[..k] + [x] + ys[k..];
    forall i | 0 <= i < k ensures !Less(key(x), key(ys[i])) {
      if i < k - 1 { NotLessTransitive(key(ys[i]), key(ys[k - 1]), key(x)); }
    }
    forall j | k <= j < |ys| ensures !Less(key(ys[j]), key(x)) { LessAsymmetric(key(x), key(ys[j])); }
    forall i, j | 0 <= i < j < |zs| ensures !Less(key(zs[j]), key(zs[i])) {
      assert zs[i] == if i < k then ys[i] else if i == k then x else ys[i - 1];
      assert zs[j] == if j < k then ys[j] else if j == k then x else ys[j - 1];
    }
  }

  lemma LessAsymmetric(a: string, b: string)
    requires Less(a, b)
    ensures !Less(b, a)
  {
    if Less(b, a) {
      LessTransitive(a, b, a);
      LessIrreflexive(a);
    }
  }

  method Dedupe(names: seq<string>) returns (out: seq<string>)
    ensures out == Canonical(names)
  {
    var seen: set<string> := {};
    var kept := [];
    for n := 0 to |names|
      invariant forall y :: y in seen <==> y in kept
      invariant forall y :: y in kept <==> y in names[..n] && y != ""
      invariant forall i, j :: 0 <= i < j < |kept| ==> kept[i] != kept[j]
    {
      var v := names[n];
      if v == "" || v in seen { continue; }
      seen := seen + {v};
      kept := kept + [v];
    }
    out := SortBy(kept, (s: string) => s);
    SortedDistinct(kept, out);
    SameMembers(out, kept);
    assert names[..|names|] == names;
    StrictlySortedUnique(out, Canonical(names));
  }

  lemma SortedDistinct(xs: seq<string>, ys: seq<string>)
    requires forall i, j :: 0 <= i < j < |xs| ==> xs[i] != xs[j]
    requires multiset(ys) == multiset(xs)
    requires KeyOrder(ys, (s: string) => s)
    ensures StrictlySorted(ys)
  {
    forall i, j | 0 <= i < j < |ys| ensures Less(ys[i], ys[j]) {
      LessTotal(ys[i], ys[j]);
      if ys[i] == ys[j] {
        CountTwice(ys, i, j);
        CountOnce(xs, ys[i]);
      }
    }
  }

  lemma CountTwice<T>(xs: seq<T>, i: int, j: int)
    requires 0 <= i < j < |xs| && xs[i] == xs[j]
    ensures multiset(xs)[xs[i]] >= 2
  {
    assert xs == xs[..j] + [xs[j]] + xs[j + 1..];
    assert xs[i] in xs[..j];
  }

  lemma {:induction false} CountOnce<T>(xs: seq<T>, x: T)
    requires forall i, j :: 0 <= i < j < |xs| ==> xs[i] != xs[j]
    ensures multiset(xs)[x] <= 1
  {
    if xs != [] {
      CountOnce(xs[1..], x);
      assert xs == [xs[0]] + xs[1..];
      assert x == xs[0] ==> x !in xs[1..];
    }
  }

  function Without<T>(xs: seq<T>, k: nat): seq<T>
    requires k < |xs|
  {
    xs[..k] + xs[k + 1..]
  }

  lemma WithoutCount<T>(xs: seq<T>, k: nat)
    requires k < |xs|
    ensures multiset(xs) == multiset(Without(xs, k)) + multiset{xs[k]}
  {
    assert xs == xs[..k] + ([xs[k]] + xs[k + 1..]);
  }

  lemma MapWithout<A, B>(xs: seq<A>, k: nat, f: A -> B)
    requires k < |xs|
    ensures multiset(Map(xs, f)) == multiset(Map(Without(xs, k), f)) + multiset{f(xs[k])}
  {
    WithoutCount(Map(xs, f), k);
    assert Map(Without(xs, k), f) == Without(Map(xs, f), k);
  }

  lemma {:induction false} MapPermutation<A, B>(xs: seq<A>, ys: seq<A>, f: A -> B)
    requires multiset(xs) == multiset(ys)
    ensures multiset(Map(xs, f)) == multiset(Map(ys, f))
  {
    if xs == [] {
      assert |ys| == |multiset(ys)| == 0;
    } else {
      assert xs[0] in multiset(ys);
      var k :| 0 <= k < |ys| && ys[k] == xs[0];
      WithoutCount(xs, 0);
      WithoutCount(ys, k);
      assert multiset(Without(xs, 0)) == multiset(xs) - multiset{xs[0]} == multiset(Without(ys, k));
      MapPermutation(Without(xs, 0), Without(ys, k), f);
      MapWithout(xs, 0, f);
      MapWithout(ys, k, f);
    }
  }

  method HandlersFor(r: SiteRoute, opt: BuildOptions) returns (handlers: seq<Handler>)
    ensures handlers == Render(r, opt).handle
  {
    handlers := [];
    if opt.wafEnabled {
      handlers := handlers + [RateLimit(if opt.rateLimitPerMinute <= 0 then 240 else opt.rateLimitPerMinute)];
      handlers := handlers + [Waf(opt.corazaDirectives)];
    }
    if r.redirectTo != "" {
      handlers := handlers + [Redirect(RedirectLocation(r.redirectTo))];
    } else if r.offline || r.upstream == "" {
      handlers := handlers + [Static503(opt.maintenanceMessage)];
    } else {
      handlers := handlers + [Proxy(r.upstream, false)];
    }
  }

  method TlsSection(subjects: seq<string>, opt: BuildOptions) returns (tls: Option<Tls>)
    ensures tls == TlsApp(Canonical(subjects), opt)
  {
    tls := None;
    if opt.acmeEmail != "" || opt.onDemandAskURL != "" {
      var names := Dedupe(subjects);
      var policy := TlsPolicy(names, if opt.acmeEmail != "" then Some(opt.acmeEmail) else None, false);
      var policies: seq<TlsPolicy> := [];
      if |names| > 0 { policies := policies + [policy]; }
      assert policies == if names != [] then [policy] else [];
      var ask: Option<string> := None;
      if opt.onDemandAskURL != "" {
        ask := Some(opt.onDemandAskURL);
        policies := policies + [TlsPolicy([], None, true)];
      }
      assert policies == (if names != [] then [policy] else [])
                         + (if ask.Some? then [TlsPolicy([], None, true)] else []);
      tls := Some(Tls(policies, ask, if opt.mailHostname != "" then [opt.mailHostname] else []));
    }
  }

  lemma OneRouteMore(rs: seq<Route>, n: nat)
    requires n < |rs|
    ensures Published(rs[..n + 1]) == Published(rs[..n]) + if rs[n].hosts == [] then [] else [rs[n]]
    ensures AllHosts(rs[..n + 1]) == AllHosts(rs[..n]) + rs[n].hosts
  {
    assert rs[..n + 1][..n] == rs[..n];
  }

  method ClientSection(sorted: seq<SiteRoute>, opt: BuildOptions, fixed: seq<Route>, names: seq<string>)
    returns (out: seq<Route>, subjects: seq<string>)
    ensures out == fixed + Published(RenderAll(sorted, opt))
    ensures subjects == names + AllHosts(RenderAll(sorted, opt))
  {
    out, subjects := fixed, names;
    ghost var rendered := RenderAll(sorted, opt);
    for n := 0 to |sorted|
      invariant out == fixed + Published(rendered[..n])
      invariant subjects == names + AllHosts(rendered[..n])
    {
      var r := sorted[n];
      OneRouteMore(rendered, n);
      assert rendered[n] == Render(r, opt);
      if |r.hosts| == 0 { continue; }
      subjects := subjects + r.hosts;
      var handlers := HandlersFor(r, opt);
      var route := Route(r.hosts, handlers, true);
      assert route == rendered[n];
      out := out + [route];
    }
    assert rendered[..|sorted|] == rendered;
  }

  method FixedSection(opt: BuildOptions) returns (out: seq<Route>, subjects: seq<string>)
    ensures out == FixedRoutes(opt) && subjects == FixedSubjects(opt)
  {
    out := [];
    if opt.panelHost != "" && opt.panelUpstream != "" {
      out := out + [Route([opt.panelHost], [Proxy(opt.panelUpstream, true)], true)];
    }
    if opt.webmailHost != "" && opt.webmailUpstream != "" {
      out := out + [Route([opt.webmailHost], [Proxy(opt.webmailUpstream, true)], true)];
    }
    subjects := [];
    if opt.panelHost != "" { subjects := subjects + [opt.panelHost]; }
    if opt.webmailHost != "" { subjects := subjects + [opt.webmailHost]; }
    if opt.mailHostname != "" { subjects := subjects + [opt.mailHostname]; }
  }

  method Build(routes: seq<SiteRoute>, options: BuildOptions) returns (cfg: Config)
    ensures Compiles(RenderAll(routes, Defaulted(options)), options, cfg)
  {
    var opt := Defaulted(options);
    var out, subjects := FixedSection(opt);
    var sorted := SortBy(routes, (r: SiteRoute) => Join(r.hosts, ','));
    out, subjects := ClientSection(sorted, opt, out, subjects);
    var tls := TlsSection(subjects, opt);
    cfg := Config(opt.listen, opt.logLevel, out, tls);
    SortCompiles(routes, sorted, options, cfg);
  }

  lemma SortCompiles(routes: seq<SiteRoute>, sorted: seq<SiteRoute>, options: BuildOptions, cfg: Config)
    requires multiset(sorted) == multiset(routes) && KeyOrder(sorted, (r: SiteRoute) => Join(r.hosts, ','))
    requires cfg == Assemble(RenderAll(sorted, Defaulted(options)), Defaulted(options))
    ensures Compiles(RenderAll(routes, Defaulted(options)), options, cfg)
  {
    MapPermutation(sorted, routes, Renderer(Defaulted(options)));
    var rendered := RenderAll(sorted, Defaulted(options));
    forall i, j | 0 <= i < j < |rendered|
      ensures !Less(Join(rendered[j].hosts, ','), Join(rendered[i].hosts, ','))
    {
      assert !Less(Join(sorted[j].hosts, ','), Join(sorted[i].hosts, ','));
    }
  }

  // ---- The result does not depend on the input order --------------------------------

  ghost predicate CommaFree(rs: seq<Route>) {
    forall r, h :: r in rs && h in r.hosts ==> ',' !in h
  }

  ghost predicate Disjoint(r: Route, s: Route) { forall h :: h in r.hosts ==> h !in s.hosts }

  /** Every route occurs once, has hosts, and shares none of them with another route. */
  ghost predicate Separated(rs: seq<Route>) {
    && CommaFree(rs)
    && (forall r :: r in rs ==> r.hosts != [] && multiset(rs)[r] == 1)
    && (forall r, s :: r in rs && s in rs && r != s ==> Disjoint(r, s))
  }

  lemma SeparatedFromIndices(rs: seq<Route>)
    requires CommaFree(rs)
    requires forall r :: r in rs ==> r.hosts != []
    requires forall i, j :: 0 <= i < j < |rs| ==> Disjoint(rs[i], rs[j])
    ensures Separated(rs)
  {
    forall i, j | 0 <= i < j < |rs| ensures rs[i] != rs[j] {
      assert rs[i].hosts[0] in rs[i].hosts && Disjoint(rs[i], rs[j]);
    }
    forall r | r in rs ensures multiset(rs)[r] == 1 { CountOnce(rs, r); }
  }

  /** The first route of a sorted list is the one with the least key, and keys are distinct. */
  lemma SameFirst(xs: seq<Route>, ys: seq<Route>)
    requires multiset(xs) == multiset(ys) && Separated(xs) && InOrder(xs) && InOrder(ys)
    requires xs != [] && ys != []
    ensures xs[0] == ys[0]
  {
    SameMembers(xs, ys);
    assert xs[0] in ys && ys[0] in xs;
    var i :| 0 <= i < |ys| && ys[i] == xs[0];
    var j :| 0 <= j < |xs| && xs[j] == ys[0];
    var a, b := Join(xs[0].hosts, ','), Join(ys[0].hosts, ',');
    LessIrreflexive(a);
    assert !Less(a, b) && !Less(b, a);
    LessTotal(a, b);
    JoinInjective(xs[0].hosts, ys[0].hosts, ',');
    assert ys[0].hosts[0] in xs[0].hosts;
    assert xs[0] != ys[0] ==> Disjoint(xs[0], ys[0]);
  }

  lemma SeparatedTail(xs: seq<Route>)
    requires Separated(xs) && xs != []
    ensures Separated(xs[1..])
  {
    assert xs == [xs[0]] + xs[1..];
    forall r | r in xs[1..] ensures r in xs && multiset(xs[1..])[r] == 1 {
      assert r in multiset(xs[1..]);
    }
  }

  lemma SameLength<T>(xs: seq<T>, ys: seq<T>)
    requires multiset(xs) == multiset(ys)
    ensures |xs| == |ys|
  {
    assert |xs| == |multiset(xs)| == |multiset(ys)|;
  }

  lemma TailInOrder(rs: seq<Route>)
    requires InOrder(rs) && rs != []
    ensures InOrder(rs[1..])
  {
  }

  lemma SameTails<T>(xs: seq<T>, ys: seq<T>)
    requires multiset(xs) == multiset(ys) && xs != [] && ys != [] && xs[0] == ys[0]
    ensures multiset(xs[1..]) == multiset(ys[1..])
  {
    assert xs == [xs[0]] + xs[1..] && ys == [ys[0]] + ys[1..];
    assert multiset(xs[1..]) == multiset(xs) - multiset{xs[0]};
  }

  lemma {:induction false} UniqueOrder(xs: seq<Route>, ys: seq<Route>)
    requires multiset(xs) == multiset(ys) && Separated(xs) && InOrder(xs) && InOrder(ys)
    ensures xs == ys
  {
    SameLength(xs, ys);
    if xs != [] {
      SameFirst(xs, ys);
      SeparatedTail(xs);
      TailInOrder(xs);
      TailInOrder(ys);
      SameTails(xs, ys);
      UniqueOrder(xs[1..], ys[1..]);
      assert xs == [xs[0]] + xs[1..] && ys == [ys[0]] + ys[1..];
    }
  }

  lemma PermutationInvariant(rs: seq<Route>, qs: seq<Route>, opt: BuildOptions, c: Config, d: Config)
    requires multiset(rs) == multiset(qs) && Separated(rs)
    requires Compiles(rs, opt, c) && Compiles(qs, opt, d)
    ensures c == d
  {
    var xs :| multiset(xs) == multiset(rs) && InOrder(xs) && c == Assemble(xs, Defaulted(opt));
    var ys :| multiset(ys) == multiset(qs) && InOrder(ys) && d == Assemble(ys, Defaulted(opt));
    SeparatedPermutation(rs, xs);
    UniqueOrder(xs, ys);
  }

  lemma SeparatedPermutation(rs: seq<Route>, xs: seq<Route>)
    requires multiset(rs) == multiset(xs) && Separated(rs)
    ensures Separated(xs)
  {
    SameMembers(rs, xs);
  }

  /** What Build needs of its input for its result to be unique. */
  ghost predicate DistinctHosts(routes: seq<SiteRoute>) {
    && (forall r, h :: r in routes && h in r.hosts ==> ',' !in h)
    && (forall r :: r in routes ==> r.hosts != [])
    && (forall i, j, h :: 0 <= i < j < |routes| && h in routes[i].hosts ==> h !in routes[j].hosts)
  }

  lemma RenderedSeparated(routes: seq<SiteRoute>, opt: BuildOptions)
    requires DistinctHosts(routes)
    ensures Separated(RenderAll(routes, opt))
  {
    var rs := RenderAll(routes, opt);
    forall r | r in rs ensures r.hosts != [] && forall h :: h in r.hosts ==> ',' !in h {
      var i :| 0 <= i < |rs| && rs[i] == r;
      assert routes[i] in routes;
    }
    forall i, j | 0 <= i < j < |rs| ensures Disjoint(rs[i], rs[j]) {
      assert rs[i].hosts == routes[i].hosts && rs[j].hosts == routes[j].hosts;
    }
    SeparatedFromIndices(rs);
  }

  /** Build's result does not depend on the order of its input: any two results for permutations
      of one list with non-empty, pairwise disjoint, comma-free host lists are equal. */
  lemma BuildPermutation(routes: seq<SiteRoute>, permuted: seq<SiteRoute>, options: BuildOptions, c: Config, d: Config)
    requires multiset(routes) == multiset(permuted) && DistinctHosts(routes)
    ensures (Compiles(RenderAll(routes, Defaulted(options)), options, c)
             && Compiles(RenderAll(permuted, Defaulted(options)), options, d)) ==> c == d
  {
    var rs, qs := RenderAll(routes, Defaulted(options)), RenderAll(permuted, Defaulted(options));
    MapPermutation(routes, permuted, Renderer(Defaulted(options)));
    RenderedSeparated(routes, Defaulted(options));
    if Compiles(rs, options, c) && Compiles(qs, options, d) { PermutationInvariant(rs, qs, options, c, d); }
  }

  // ---- What a handler says -------------------------------------------------------------

  predicate OnlySlashes(s: string) { forall c :: c in s ==> c == '/' }

  /** A redirect keeps path and query: the target without its trailing slashes, https unless it
      says otherwise, followed by the URI of the request. */
  ghost predicate SendsTo(target: string, location: string) {
    exists start, slashes ::
      (if "http://" <= target || "https://" <= target then target else "https://" + target) == start + slashes
      && OnlySlashes(slashes) && !(start != "" && start[|start| - 1] == '/')
      && location == start + "{http.request.uri}"
  }

  lemma {:induction false} SlashesTrimmed(s: string) returns (slashes: string)
    ensures s == TrimSlashes(s) + slashes && OnlySlashes(slashes)
    ensures !(TrimSlashes(s) != "" && TrimSlashes(s)[|TrimSlashes(s)| - 1] == '/')
  {
    if s != "" && s[|s| - 1] == '/' {
      slashes := SlashesTrimmed(s[..|s| - 1]);
      slashes := slashes + "/";
      assert s == s[..|s| - 1] + "/";
    } else {
      slashes := "";
    }
  }

  lemma RedirectSends(target: string)
    ensures SendsTo(target, RedirectLocation(target))
  {
    var full := if "http://" <= target || "https://" <= target then target else "https://" + target;
    var slashes := SlashesTrimmed(full);
    assert full == TrimSlashes(full) + slashes;
  }

  /** The handler a site owner asks for, in the order of the switch: redirect, page, proxy. */
  ghost predicate Answers(h: Handler, redirectTo: string, running: bool, upstream: string, message: string) {
    if redirectTo != "" then h.Redirect? && SendsTo(redirectTo, h.location)
    else if !running || upstream == "" then
      h == Static503(if message == "" then "Este sitio está temporalmente detenido." else message)
    else h == Proxy(upstream, false)
  }

  /** Rate limit and firewall come first, and only when they are on. */
  predicate Guarded(hs: seq<Handler>, wafEnabled: bool, perMinute: int, directives: string, last: Handler) {
    hs == if wafEnabled then [RateLimit(if perMinute <= 0 then 240 else perMinute), Waf(directives), last] else [last]
  }

  lemma RenderAnswers(r: SiteRoute, opt: BuildOptions)
    ensures Answers(Answer(r, Defaulted(opt)), r.redirectTo, !r.offline, r.upstream, opt.maintenanceMessage)
    ensures Guarded(Render(r, Defaulted(opt)).handle, opt.wafEnabled, opt.rateLimitPerMinute, opt.corazaDirectives,
                    Answer(r, Defaulted(opt)))
  {
    RedirectSends(r.redirectTo);
  }

  /** The route holds the hosts of its input, stops there, and answers behind the guards. */
  ghost predicate Publicizes(p: Route, r: SiteRoute, opt: BuildOptions) {
    p.hosts == r.hosts && p.terminal
    && exists last :: Guarded(p.handle, opt.wafEnabled, opt.rateLimitPerMinute, opt.corazaDirectives, last)
                      && Answers(last, r.redirectTo, !r.offline, r.upstream, opt.maintenanceMessage)
  }

  lemma RenderPublicizes(r: SiteRoute, opt: BuildOptions)
    ensures Publicizes(Render(r, Defaulted(opt)), r, opt)
  {
    RenderAnswers(r, opt);
  }

  lemma RenderedMembers(routes: seq<SiteRoute>, opt: BuildOptions, p: Route)
    ensures p in RenderAll(routes, opt) <==> exists r :: r in routes && p == Render(r, opt)
  {
    var rs := RenderAll(routes, opt);
    if p in rs {
      var i :| 0 <= i < |rs| && rs[i] == p;
      assert routes[i] in routes;
    }
    if r :| r in routes && p == Render(r, opt) {
      var i :| 0 <= i < |routes| && routes[i] == r;
      assert rs[i] == p;
    }
  }

  lemma CompiledRoutes(routes: seq<SiteRoute>, opt: BuildOptions, cfg: Config, p: Route)
    requires Compiles(RenderAll(routes, Defaulted(opt)), opt, cfg)
    ensures p in cfg.routes
            <==> p in FixedRoutes(opt) || exists r :: r in routes && r.hosts != [] && p == Render(r, Defaulted(opt))
  {
    var rs := RenderAll(routes, Defaulted(opt));
    var sorted: seq<Route> :|
      multiset(sorted) == multiset(rs) && InOrder(sorted) && cfg == Assemble(sorted, Defaulted(opt));
    SameMembers(sorted, rs);
    PublishedMembers(sorted, p);
    RenderedMembers(routes, Defaulted(opt), p);
  }

  /** Build on its input, whatever the order: every route with hosts is published behind its guards
      and with its answer, and no others are but the panel's and the webmail's. */
  lemma BuildRoutes(routes: seq<SiteRoute>, opt: BuildOptions, cfg: Config)
    requires Compiles(RenderAll(routes, Defaulted(opt)), opt, cfg)
    ensures forall r :: r in routes && r.hosts != [] ==> exists p :: p in cfg.routes && Publicizes(p, r, opt)
    ensures forall p :: p in cfg.routes ==>
              p == Route([opt.panelHost], [Proxy(opt.panelUpstream, true)], true)
              || p == Route([opt.webmailHost], [Proxy(opt.webmailUpstream, true)], true)
              || exists r :: r in routes && r.hosts != [] && Publicizes(p, r, opt)
  {
    forall r | r in routes && r.hosts != [] ensures exists p :: p in cfg.routes && Publicizes(p, r, opt) {
      CompiledRoutes(routes, opt, cfg, Render(r, Defaulted(opt)));
      RenderPublicizes(r, opt);
    }
    forall p | p in cfg.routes && p !in FixedRoutes(opt)
      ensures exists r :: r in routes && r.hosts != [] && Publicizes(p, r, opt)
    {
      PublishedFor(routes, opt, cfg, p);
    }
    FixedOnes(opt);
  }

  lemma FixedOnes(opt: BuildOptions)
    ensures forall p :: p in FixedRoutes(opt) ==>
              p == Route([opt.panelHost], [Proxy(opt.panelUpstream, true)], true)
              || p == Route([opt.webmailHost], [Proxy(opt.webmailUpstream, true)], true)
  {
  }

  lemma PublishedFor(routes: seq<SiteRoute>, opt: BuildOptions, cfg: Config, p: Route)
    requires Compiles(RenderAll(routes, Defaulted(opt)), opt, cfg) && p in cfg.routes && p !in FixedRoutes(opt)
    ensures exists r :: r in routes && r.hosts != [] && Publicizes(p, r, opt)
  {
    CompiledRoutes(routes, opt, cfg, p);
    var r :| r in routes && r.hosts != [] && p == Render(r, Defaulted(opt));
    RenderPublicizes(r, opt);
  }

  /** Ports and log level have defaults. */
  lemma BuildDefaults(rs: seq<Route>, opt: BuildOptions, cfg: Config)
    requires Compiles(rs, opt, cfg)
    ensures cfg.listen == (if opt.listen == [] then [":80", ":443"] else opt.listen)
    ensures cfg.logLevel == (if opt.logLevel == "" then "INFO" else opt.logLevel)
  {
  }

  /** The policies: one for the subjects, with the e-mail if there is one, exactly when there are
      subjects; then the on-demand one exactly when there is somebody to ask. */
  predicate PoliciesFor(tls: Tls, subjects: seq<string>, acmeEmail: string, askURL: string) {
    tls.policies == (if subjects == [] then []
                     else [TlsPolicy(subjects, if acmeEmail == "" then None else Some(acmeEmail), false)])
                    + (if askURL == "" then [] else [TlsPolicy([], None, true)])
  }

  lemma TlsAppExactly(subjects: seq<string>, opt: BuildOptions)
    ensures TlsApp(subjects, opt).None? <==> opt.acmeEmail == "" && opt.onDemandAskURL == ""
    ensures TlsApp(subjects, opt).Some? ==>
              var tls := TlsApp(subjects, opt).value;
              && PoliciesFor(tls, subjects, opt.acmeEmail, opt.onDemandAskURL)
              && tls.askURL == (if opt.onDemandAskURL == "" then None else Some(opt.onDemandAskURL))
              && tls.automate == (if opt.mailHostname == "" then [] else [opt.mailHostname])
              && subjects == if tls.policies == [] then [] else tls.policies[0].subjects
  {
  }

  /** The TLS section is absent exactly without e-mail and ask URL; otherwise it has the policies
      for its subjects, asks where it is told, and keeps the mail name renewed. */
  lemma TlsExactly(rs: seq<Route>, opt: BuildOptions, cfg: Config)
    requires Compiles(rs, opt, cfg)
    ensures cfg.tls.None? <==> opt.acmeEmail == "" && opt.onDemandAskURL == ""
    ensures cfg.tls.Some? ==>
              && PoliciesFor(cfg.tls.value, TlsSubjects(cfg), opt.acmeEmail, opt.onDemandAskURL)
              && cfg.tls.value.askURL == (if opt.onDemandAskURL == "" then None else Some(opt.onDemandAskURL))
              && cfg.tls.value.automate == (if opt.mailHostname == "" then [] else [opt.mailHostname])
  {
    var sorted: seq<Route> :|
      multiset(sorted) == multiset(rs) && InOrder(sorted) && cfg == Assemble(sorted, Defaulted(opt));
    AssembledTls(sorted, opt, cfg);
  }

  lemma AssembledTls(sorted: seq<Route>, opt: BuildOptions, cfg: Config)
    requires cfg == Assemble(sorted, Defaulted(opt))
    ensures cfg.tls.None? <==> opt.acmeEmail == "" && opt.onDemandAskURL == ""
    ensures cfg.tls.Some? ==>
              && PoliciesFor(cfg.tls.value, TlsSubjects(cfg), opt.acmeEmail, opt.onDemandAskURL)
              && cfg.tls.value.askURL == (if opt.onDemandAskURL == "" then None else Some(opt.onDemandAskURL))
              && cfg.tls.value.automate == (if opt.mailHostname == "" then [] else [opt.mailHostname])
  {
    var subjects := Canonical(FixedSubjects(Defaulted(opt)) + AllHosts(sorted));
    TlsAppExactly(subjects, Defaulted(opt));
    assert cfg.tls == TlsApp(subjects, Defaulted(opt));
  }

  // ---- What the edge does with a route list -----------------------------------------

  /** Exact name, or a leading `*.` standing for one label. */
  predicate HostMatches(pattern: string, host: string) {
    pattern == host
    || (|pattern| > 2 && pattern[..2] == "*." && |host| >= |pattern|
        && host[|host| - |pattern| + 1..] == pattern[1..]
        && '.' !in host[..|host| - |pattern| + 1])
  }

  predicate RouteMatches(r: Route, host: string) {
    exists i :: 0 <= i < |r.hosts| && HostMatches(r.hosts[i], host)
  }

  /** The handlers run for a host: matching routes in order, up to the first terminal one. */
  function Serve(routes: seq<Route>, host: string): seq<Handler> {
    if routes == [] then []
    else if RouteMatches(routes[0], host) then
      routes[0].handle + if routes[0].terminal then [] else Serve(routes[1..], host)
    else Serve(routes[1..], host)
  }

  lemma {:induction false} ServeFirst(routes: seq<Route>, host: string, k: int)
    requires 0 <= k < |routes| && routes[k].terminal && RouteMatches(routes[k], host)
    requires forall j :: 0 <= j < k ==> !RouteMatches(routes[j], host)
    ensures Serve(routes, host) == routes[k].handle
  {
    if k > 0 { ServeFirst(routes[1..], host, k - 1); }
  }

  lemma {:induction false} ServeNothing(routes: seq<Route>, host: string)
    requires forall j :: 0 <= j < |routes| ==> !RouteMatches(routes[j], host)
    ensures Serve(routes, host) == []
  {
    if routes != [] { ServeNothing(routes[1..], host); }
  }

  lemma {:induction false} ServeConcat(xs: seq<Route>, ys: seq<Route>, host: string)
    requires forall r :: r in xs ==> r.terminal
    ensures Serve(xs + ys, host) ==
            if exists r :: r in xs && RouteMatches(r, host) then Serve(xs, host) else Serve(ys, host)
  {
    if xs == [] {
      assert xs + ys == ys;
    } else {
      ServeConcat(xs[1..], ys, host);
      assert (xs + ys)[1..] == xs[1..] + ys;
      assert xs == [xs[0]] + xs[1..];
    }
  }

  // ---- TLS subjects -----------------------------------------------------------------

  lemma {:induction false} AllHostsMembers(rs: seq<Route>, h: string)
    ensures h in AllHosts(rs) <==> exists r :: r in rs && h in r.hosts
  {
    if rs != [] {
      AllHostsMembers(rs[..|rs| - 1], h);
      assert rs == rs[..|rs| - 1] + [rs[|rs| - 1]];
    }
  }

  lemma {:induction false} PublishedMembers(rs: seq<Route>, r: Route)
    ensures r in Published(rs) <==> r in rs && r.hosts != []
  {
    if rs != [] {
      PublishedMembers(rs[..|rs| - 1], r);
      assert rs == rs[..|rs| - 1] + [rs[|rs| - 1]];
    }
  }

  function TlsSubjects(cfg: Config): seq<string> {
    if cfg.tls.Some? && cfg.tls.value.policies != [] then cfg.tls.value.policies[0].subjects else []
  }

  lemma SubjectsOf(sorted: seq<Route>, opt: BuildOptions)
    requires opt.acmeEmail != "" || opt.onDemandAskURL != ""
    ensures Assemble(sorted, opt).tls.Some?
    ensures TlsSubjects(Assemble(sorted, opt)) == Canonical(FixedSubjects(opt) + AllHosts(sorted))
  {
  }

  lemma SameMembers<T>(xs: seq<T>, ys: seq<T>)
    requires multiset(xs) == multiset(ys)
    ensures forall x {:trigger x in xs} {:trigger x in ys} :: x in xs <==> x in ys
  {
    forall x ensures x in xs <==> x in ys {
      assert x in xs <==> x in multiset(xs);
      assert x in ys <==> x in multiset(ys);
    }
  }

  lemma SubjectMembers(sorted: seq<Route>, opt: BuildOptions, h: string)
    ensures h in Canonical(FixedSubjects(opt) + AllHosts(sorted)) <==>
            h != "" && (h == opt.panelHost || h == opt.webmailHost || h == opt.mailHostname
                        || exists r :: r in sorted && h in r.hosts)
  {
    AllHostsMembers(sorted, h);
  }

  lemma RoutedHosts(sorted: seq<Route>, opt: BuildOptions, h: string, r: Route)
    requires r in FixedRoutes(opt) + Published(sorted) && h in r.hosts
    ensures h == opt.panelHost || h == opt.webmailHost || r in sorted
  {
    PublishedMembers(sorted, r);
  }

  /** The subject list is strictly increasing and holds exactly the panel, webmail, mail and
      client names; so every name that a published route answers for is a subject. */
  lemma SubjectsExact(rs: seq<Route>, opt: BuildOptions, cfg: Config, h: string)
    requires Compiles(rs, opt, cfg)
    requires opt.acmeEmail != "" || opt.onDemandAskURL != ""
    ensures cfg.tls.Some? && StrictlySorted(TlsSubjects(cfg))
    ensures h in TlsSubjects(cfg) <==>
            h != "" && (h == opt.panelHost || h == opt.webmailHost || h == opt.mailHostname
                        || exists r :: r in rs && h in r.hosts)
    ensures h != "" && (exists r :: r in cfg.routes && h in r.hosts) ==> h in TlsSubjects(cfg)
  {
    var sorted: seq<Route> :|
      multiset(sorted) == multiset(rs) && InOrder(sorted) && cfg == Assemble(sorted, Defaulted(opt));
    SameMembers(sorted, rs);
    SubjectMembers(sorted, Defaulted(opt), h);
    SubjectsOf(sorted, Defaulted(opt));
    if r :| r in cfg.routes && h in r.hosts { RoutedHosts(sorted, Defaulted(opt), h, r); }
  }
}
