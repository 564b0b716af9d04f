/** enforceQuotas: traffic sampling from resettable container counters, the truncated monthly
    counter, and automatic suspension. Megabytes are reals; int64(x) is the floor of x >= 0. */
module Bandwidth {
  datatype Status = Active | Suspended | Terminated
  datatype Account = Account(status: Status, reason: string, usedMB: int, resetMonth: int)

  const AUTO_REASON := "cuota de transferencia superada (automático)"

  datatype Net = Net(rx: real, tx: real)
  datatype Site = Site(running: bool, counter: Net, baseline: Net)

  /** What a tick gets from a site: no reading, or a reading whose baseline write may fail. */
  datatype Sample = NoReading | Reading(saved: bool)

  /** How a call to Suspend/UnsuspendAccount ends: before the status write, after it, or well. */
  datatype Lifecycle = NotWritten | NotSynced | Done

  datatype Answers = Answers(listed: bool, resetOk: bool, unsuspend: Lifecycle, addOk: bool, suspend: Lifecycle)

  function Total(n: Net): real { n.rx + n.tx }

  /** Traffic since the baseline; a counter below it means the container restarted. */
  function Delta(s: Site): real {
    if Total(s.counter) >= Total(s.baseline) then Total(s.counter) - Total(s.baseline) else Total(s.counter)
  }

  predicate Sampled(s: Site, x: Sample) { s.running && x.Reading? }

  function AfterSample(s: Site, x: Sample): Site {
    if Sampled(s, x) && x.saved then s.(baseline := s.counter) else s
  }

  function SumDeltas(sites: seq<Site>, xs: seq<Sample>): real
    requires |sites| == |xs|
  {
    if sites == [] then 0.0
    else
      var n := |sites| - 1;
      SumDeltas(sites[..n], xs[..n]) + if Sampled(sites[n], xs[n]) then Delta(sites[n]) else 0.0
  }

  function AfterSamples(sites: seq<Site>, xs: seq<Sample>): (out: seq<Site>)
    requires |sites| == |xs|
    ensures |out| == |sites|
    ensures forall i :: 0 <= i < |sites| ==> out[i] == AfterSample(sites[i], xs[i])
  {
    seq(|sites|, i requires 0 <= i < |sites| => AfterSample(sites[i], xs[i]))
  }

  // ---- One account, one tick --------------------------------------------------------

  function Reset(a: Account, month: int, r: Answers): Account {
    if a.resetMonth == month || !r.resetOk then a
    else
      var b := a.(usedMB := 0, resetMonth := month);
      if a.status == Suspended && a.reason == AUTO_REASON && r.unsuspend != NotWritten
      then b.(status := Active, reason := "") else b
  }

  /** The status the loop goes on with: a failed reactivation leaves the old one in memory. */
  function SeenStatus(a: Account, month: int, r: Answers): Status {
    if Reset(a, month, r).status != a.status && r.unsuspend != Done then a.status
    else Reset(a, month, r).status
  }

  function Added(a: Account, delta: real, r: Answers): Account {
    if delta > 0.0 && r.addOk then a.(usedMB := a.usedMB + delta.Floor) else a
  }

  function Tick(a: Account, delta: real, month: int, quota: int, r: Answers): Account {
    if a.status == Terminated || !r.listed then a
    else
      var b := Added(Reset(a, month, r), delta, r);
      if SeenStatus(a, month, r) == Active && quota > 0 && b.usedMB >= quota && r.suspend != NotWritten
      then b.(status := Suspended, reason := AUTO_REASON) else b
  }

  // ---- The code ---------------------------------------------------------------------

  class Hosting {
    var account: Account
    var sites: seq<Site>

    constructor (account: Account, sites: seq<Site>)
      ensures this.account == account && this.sites == sites
    {
      this.account, this.sites := account, sites;
    }

    method SampleTraffic(xs: seq<Sample>) returns (deltaMB: real)
      requires |xs| == |sites|
      modifies this`sites
      ensures deltaMB == SumDeltas(old(sites), xs)
      ensures sites == AfterSamples(old(sites), xs)
    {
      deltaMB := 0.0;
      ghost var was := sites;
      for n := 0 to |sites|
        invariant |sites| == |was| == |xs|
        invariant deltaMB == SumDeltas(was[..n], xs[..n])
        invariant forall i :: 0 <= i < |was| ==> sites[i] == if i < n then AfterSample(was[i], xs[i]) else was[i]
      {
        assert was[..n + 1][..n] == was[..n] && xs[..n + 1][..n] == xs[..n];
        var site := sites[n];
        if !site.running { continue; }
        if xs[n].NoReading? { continue; }
        var cumulative := site.counter.rx + site.counter.tx;
        var baseline := site.baseline.rx + site.baseline.tx;
        if cumulative >= baseline {
          deltaMB := deltaMB + (cumulative - baseline);
        } else {
          deltaMB := deltaMB + cumulative;
        }
        if xs[n].saved { sites := sites[n := site.(baseline := site.counter)]; }
      }
      assert was[..|was|] == was && xs[..|was|] == xs;
    }

    method EnforceQuota(xs: seq<Sample>, month: int, quota: int, r: Answers)
      requires |xs| == |sites|
      modifies this
      ensures account == Tick(old(account), SumDeltas(old(sites), xs), month, quota, r)
      ensures sites == if old(account).status == Terminated || !r.listed then old(sites)
                       else AfterSamples(old(sites), xs)
    {
      var acct := account;
      if acct.status == Terminated { return; }
      if !r.listed { return; }
      var deltaMB := SampleTraffic(xs);

      if acct.resetMonth != month {
        if r.resetOk {
          account := account.(usedMB := 0, resetMonth := month);
          acct := acct.(usedMB := 0);
          if acct.status == Suspended && acct.reason == AUTO_REASON {
            if r.unsuspend != NotWritten { account := account.(status := Active, reason := ""); }
            if r.unsuspend == Done { acct := acct.(status := Active); }
          }
        }
      }

      if deltaMB > 0.0 {
        if r.addOk {
          account := account.(usedMB := account.usedMB + deltaMB.Floor);
          acct := acct.(usedMB := acct.usedMB + deltaMB.Floor);
        }
      }

      if acct.status == Active && quota > 0 && acct.usedMB >= quota {
        if r.suspend != NotWritten { account := account.(status := Suspended, reason := AUTO_REASON); }
      }
    }
  }

  // ---- One site, one account --------------------------------------------------------

  /** What one more site adds to the sum: nothing unless it runs and could be read; the growth since
      the baseline when the counter has not fallen below it, the whole counter when it has. The
      reading becomes the baseline exactly when it was saved. */
  lemma OneSiteMore(sites: seq<Site>, xs: seq<Sample>, n: nat)
    requires |sites| == |xs| && n < |sites|
    ensures var s := sites[n];
            var now, before := s.counter.rx + s.counter.tx, s.baseline.rx + s.baseline.tx;
            && SumDeltas(sites[..n + 1], xs[..n + 1]) - SumDeltas(sites[..n], xs[..n]) ==
               (if !s.running || xs[n].NoReading? then 0.0 else if now < before then now else now - before)
            && AfterSamples(sites, xs)[n].baseline ==
               (if s.running && xs[n] == Reading(true) then s.counter else s.baseline)
            && AfterSamples(sites, xs)[n].counter == s.counter && AfterSamples(sites, xs)[n].running == s.running
  {
    assert sites[..n + 1][..n] == sites[..n] && xs[..n + 1][..n] == xs[..n];
  }

  /** An active account after a tick without errors: the usage of this month, and suspended, for
      that reason, exactly when a quota is set and reached. */
  lemma ActiveExactly(a: Account, delta: real, month: int, quota: int)
    requires a.status == Active && delta >= 0.0
    ensures var b := Tick(a, delta, month, quota, NO_ERRORS);
            var used := (if a.resetMonth == month then a.usedMB else 0) + delta.Floor;
            && b.usedMB == used && b.resetMonth == month
            && (b.status == Suspended <==> quota > 0 && used >= quota)
            && (b.status == Active <==> quota <= 0 || used < quota)
            && b.reason == if b.status == Suspended then "cuota de transferencia superada (automático)" else a.reason
  {
  }

  /** The same with failures: the month turns only with its write, the delta counts only with its
      write, and the suspension takes place only with its own; but never below the quota. */
  lemma ActiveWithErrors(a: Account, delta: real, month: int, quota: int, r: Answers)
    requires a.status == Active && delta >= 0.0 && r.listed
    ensures var b := Tick(a, delta, month, quota, r);
            var turned := a.resetMonth != month && r.resetOk;
            var used := (if turned then 0 else a.usedMB) + if r.addOk then delta.Floor else 0;
            && b.usedMB == used && b.resetMonth == (if turned then month else a.resetMonth)
            && (b.status == Suspended <==> quota > 0 && used >= quota && r.suspend != NotWritten)
            && b.status in {Active, Suspended}
            && b.reason == if b.status == Suspended then "cuota de transferencia superada (automático)" else a.reason
  {
  }

  /** A suspended account keeps its counters running. It is lifted only for the automatic reason and
      only when the month turns with its write and the reactivation's; a reactivation that failed
      after its write is not followed by a new suspension in the same tick. */
  lemma SuspendedWithErrors(a: Account, delta: real, month: int, quota: int, r: Answers)
    requires a.status == Suspended && delta >= 0.0 && r.listed
    ensures var b := Tick(a, delta, month, quota, r);
            var turned := a.resetMonth != month && r.resetOk;
            var used := (if turned then 0 else a.usedMB) + if r.addOk then delta.Floor else 0;
            var lifted := turned && a.reason == "cuota de transferencia superada (automático)"
                          && r.unsuspend != NotWritten;
            var again := lifted && r.unsuspend == Done && quota > 0 && used >= quota && r.suspend != NotWritten;
            && b.usedMB == used && b.resetMonth == (if turned then month else a.resetMonth)
            && b.status == (if lifted && !again then Active else Suspended)
            && b.reason == if lifted && !again then "" else a.reason
  {
  }

  lemma TerminatedUntouched(a: Account, delta: real, month: int, quota: int, r: Answers)
    requires a.status == Terminated || !r.listed
    ensures Tick(a, delta, month, quota, r) == a
  {
  }

  // ---- The account as a state machine -----------------------------------------------

  const NO_ERRORS := Answers(true, true, Done, true, Done)

  /** After a tick without errors an active account with a quota is below it. */
  lemma ActiveIsBelowQuota(a: Account, delta: real, month: int, quota: int)
    ensures var b := Tick(a, delta, month, quota, NO_ERRORS);
            b.status == Active && quota > 0 ==> b.usedMB < quota
  {
  }

  /** The first tick of a month lifts an automatic suspension exactly when that tick's own
      traffic stays below the quota. */
  lemma NewMonthReactivates(a: Account, delta: real, month: int, quota: int)
    requires a.status == Suspended && a.reason == AUTO_REASON && a.resetMonth != month && delta >= 0.0
    ensures var b := Tick(a, delta, month, quota, NO_ERRORS);
            && (b.status == Active <==> quota <= 0 || delta.Floor < quota)
            && (b.status != Active ==> b.status == Suspended && b.reason == AUTO_REASON)
            && b.usedMB == delta.Floor && b.resetMonth == month
  {
  }

  datatype TickInput = TickInput(delta: real, month: int, quota: int, answers: Answers)

  function Ticks(a: Account, ins: seq<TickInput>): Account {
    if ins == [] then a
    else
      var i := ins[|ins| - 1];
      Tick(Ticks(a, ins[..|ins| - 1]), i.delta, i.month, i.quota, i.answers)
  }

  /** No run of ticks, with or without errors, lifts or relabels another suspension. */
  lemma {:induction false} OtherSuspensionsStay(a: Account, ins: seq<TickInput>)
    requires a.status == Suspended && a.reason != AUTO_REASON
    ensures Ticks(a, ins).status == Suspended && Ticks(a, ins).reason == a.reason
  {
    if ins != [] { OtherSuspensionsStay(a, ins[..|ins| - 1]); }
  }

  /** An automatic suspension lasts while the month does, and a terminated account never changes. */
  lemma {:induction false} SuspensionLastsTheMonth(a: Account, ins: seq<TickInput>)
    requires a.status == Terminated
             || (a.status == Suspended && forall i :: i in ins ==> i.month == a.resetMonth)
    ensures Ticks(a, ins).status == a.status && Ticks(a, ins).reason == a.reason
    ensures Ticks(a, ins).resetMonth == a.resetMonth
  {
    if ins != [] {
      assert forall i :: i in ins[..|ins| - 1] ==> i in ins;
      SuspensionLastsTheMonth(a, ins[..|ins| - 1]);
      assert ins[|ins| - 1] in ins;
    }
  }

  // ---- Traffic, restarts and ticks interleaved --------------------------------------

  datatype Event =
    | Traffic(site: nat, rx: real, tx: real)
    | Restart(site: nat)
    | SetRunning(site: nat, running: bool)
    | AddSite
    | QuotaTick(samples: seq<Sample>, month: int, quota: int, answers: Answers)

  /** `flowed` is the traffic that really passed, `credited` the sum of all deltas; `sum` and
      `adds` are the deltas added, and their number, since the last monthly reset. */
  datatype World = World(sites: seq<Site>, account: Account, flowed: real, credited: real, sum: real, adds: nat)

  predicate Enabled(w: World, e: Event) {
    match e
    case Traffic(i, rx, tx) => i < |w.sites| && rx >= 0.0 && tx >= 0.0
    case Restart(i) => i < |w.sites|
    case SetRunning(i, _) => i < |w.sites|
    case AddSite => true
    case QuotaTick(xs, _, _, _) => |xs| == |w.sites|
  }

  predicate BaselinesSaved(e: Event) {
    e.QuotaTick? ==> forall x :: x in e.samples && x.Reading? ==> x.saved
  }

  /** An event that names no site, or a negative amount, changes nothing. */
  function Apply(w: World, e: Event): World {
    if !Enabled(w, e) then w
    else match e
    case Traffic(i, rx, tx) =>
      var s := w.sites[i];
      w.(sites := w.sites[i := s.(counter := Net(s.counter.rx + rx, s.counter.tx + tx))], flowed := w.flowed + rx + tx)
    case Restart(i) => w.(sites := w.sites[i := w.sites[i].(counter := Net(0.0, 0.0))])
    case SetRunning(i, b) => w.(sites := w.sites[i := w.sites[i].(running := b)])
    case AddSite => w.(sites := w.sites + [Site(false, Net(0.0, 0.0), Net(0.0, 0.0))])
    case QuotaTick(xs, month, quota, r) =>
      if w.account.status == Terminated || !r.listed then w
      else
        var delta := SumDeltas(w.sites, xs);
        var resets := w.account.resetMonth != month && r.resetOk;
        var adds := delta > 0.0 && r.addOk;
        World(AfterSamples(w.sites, xs), Tick(w.account, delta, month, quota, r), w.flowed, w.credited + delta,
              (if resets then 0.0 else w.sum) + (if adds then delta else 0.0),
              (if resets then 0 else w.adds) + (if adds then 1 else 0))
  }

  predicate Counting(sites: seq<Site>) {
    forall i :: 0 <= i < |sites| ==> sites[i].counter.rx >= 0.0 && sites[i].counter.tx >= 0.0
  }

  /** What the next readings would credit if every site were read. */
  function Pending(sites: seq<Site>): real {
    if sites == [] then 0.0 else Pending(sites[..|sites| - 1]) + Delta(sites[|sites| - 1])
  }

  lemma {:induction false} PendingUpdate(sites: seq<Site>, i: nat, s: Site)
    requires i < |sites|
    ensures Pending(sites[i := s]) == Pending(sites) - Delta(sites[i]) + Delta(s)
  {
    var n := |sites| - 1;
    if i < n {
      PendingUpdate(sites[..n], i, s);
      assert sites[i := s][..n] == sites[..n][i := s];
    } else {
      assert sites[i := s][..n] == sites[..n];
    }
  }

  lemma {:induction false} PendingNonNegative(sites: seq<Site>)
    requires Counting(sites)
    ensures Pending(sites) >= 0.0
  {
    if sites != [] { PendingNonNegative(sites[..|sites| - 1]); }
  }

  lemma {:induction false} SampleBalance(sites: seq<Site>, xs: seq<Sample>)
    requires |sites| == |xs| && Counting(sites)
    requires forall x :: x in xs && x.Reading? ==> x.saved
    ensures SumDeltas(sites, xs) + Pending(AfterSamples(sites, xs)) == Pending(sites)
    ensures SumDeltas(sites, xs) >= 0.0
  {
    if sites != [] {
      var n := |sites| - 1;
      assert xs == xs[..n] + [xs[n]];
      SampleBalance(sites[..n], xs[..n]);
      assert AfterSamples(sites, xs)[..n] == AfterSamples(sites[..n], xs[..n]);
    }
  }

  ghost predicate Balanced(w: World) {
    && Counting(w.sites)
    && w.credited + Pending(w.sites) <= w.flowed
    && 0.0 <= w.sum <= w.credited
  }

  /** The stored counter is at most the sum of the deltas added since the last reset, and short of
      it by at most one megabyte per addition. */
  predicate Counted(w: World) {
    0.0 <= w.sum && w.sum - w.adds as real <= w.account.usedMB as real <= w.sum
  }

  lemma TickKeepsBooks(w: World, e: Event)
    requires Balanced(w) && e.QuotaTick? && Enabled(w, e) && BaselinesSaved(e)
    ensures Balanced(Apply(w, e))
  {
    if w.account.status != Terminated && e.answers.listed {
      SampleBalance(w.sites, e.samples);
    }
  }

  lemma ApplyKeepsBalance(w: World, e: Event)
    requires Balanced(w) && BaselinesSaved(e)
    ensures Balanced(Apply(w, e))
  {
    if !Enabled(w, e) { return; }
    match e
    case QuotaTick(_, _, _, _) => TickKeepsBooks(w, e);
    case Traffic(i, _, _) => PendingUpdate(w.sites, i, Apply(w, e).sites[i]);
    case Restart(i) => PendingUpdate(w.sites, i, Apply(w, e).sites[i]);
    case SetRunning(i, _) => PendingUpdate(w.sites, i, Apply(w, e).sites[i]);
    case AddSite => assert Apply(w, e).sites[..|w.sites|] == w.sites;
  }

  function After(w: World, es: seq<Event>): World {
    if es == [] then w else Apply(After(w, es[..|es| - 1]), es[|es| - 1])
  }

  /** Over every run, with whatever failures: the truncation costs at most one megabyte per added
      delta, and never adds anything. */
  lemma {:induction false} TruncationBound(w: World, es: seq<Event>)
    requires Counted(w)
    ensures Counted(After(w, es))
  {
    if es != [] { TruncationBound(w, es[..|es| - 1]); }
  }

  /** Over every interleaving in which baselines are saved the deltas, those added since the last
      reset among them, never exceed the traffic that flowed. */
  lemma {:induction false} NeverOverCredited(w: World, es: seq<Event>)
    requires Balanced(w) && forall e :: e in es ==> BaselinesSaved(e)
    ensures var v := After(w, es);
            Balanced(v) && v.credited <= v.flowed && v.sum <= v.flowed
  {
    if es != [] {
      assert forall e :: e in es[..|es| - 1] ==> e in es;
      NeverOverCredited(w, es[..|es| - 1]);
      assert es[|es| - 1] in es;
      ApplyKeepsBalance(After(w, es[..|es| - 1]), es[|es| - 1]);
    }
    PendingNonNegative(After(w, es).sites);
  }

  /** So with saved baselines no account is ever charged more than it used. */
  lemma NeverOverCharged(w: World, es: seq<Event>)
    requires Balanced(w) && Counted(w) && forall e :: e in es ==> BaselinesSaved(e)
    ensures After(w, es).account.usedMB as real <= After(w, es).flowed
  {
    TruncationBound(w, es);
    NeverOverCredited(w, es);
  }

  // ---- Exact deltas between restarts ------------------------------------------------

  function FlowInto(es: seq<Event>, i: nat): real {
    if es == [] then 0.0
    else
      var e := es[|es| - 1];
      FlowInto(es[..|es| - 1], i) + if e.Traffic? && e.site == i && e.rx >= 0.0 && e.tx >= 0.0 then e.rx + e.tx else 0.0
  }

  /** The site is neither restarted nor read by any of the events. */
  predicate Undisturbed(es: seq<Event>, i: nat) {
    forall e :: e in es ==> e != Restart(i)
                            && (e.QuotaTick? && i < |e.samples| ==> e.samples[i].NoReading?)
  }

  /** From one saved reading to the next without a restart, the delta is the traffic between. */
  lemma {:induction false} DeltaIsExact(w: World, es: seq<Event>, i: nat)
    requires i < |w.sites| && Counting(w.sites) && w.sites[i].counter == w.sites[i].baseline
    requires Undisturbed(es, i)
    ensures i < |After(w, es).sites| && FlowInto(es, i) >= 0.0
    ensures After(w, es).sites[i].baseline == w.sites[i].baseline
    ensures Total(After(w, es).sites[i].counter) == Total(w.sites[i].counter) + FlowInto(es, i)
    ensures Delta(After(w, es).sites[i]) == FlowInto(es, i)
  {
    if es != [] {
      var init, e := es[..|es| - 1], es[|es| - 1];
      assert forall x :: x in init ==> x in es;
      assert e in es;
      DeltaIsExact(w, init, i);
    }
  }

  // ---- The ledger: what is credited twice and what is never credited -------------------

  /** Counters and saved readings are never negative. */
  predicate Metered(sites: seq<Site>) {
    forall i :: 0 <= i < |sites| ==>
      sites[i].counter.rx >= 0.0 && sites[i].counter.tx >= 0.0
      && sites[i].baseline.rx >= 0.0 && sites[i].baseline.tx >= 0.0
  }

  /** The deltas of the readings whose baseline was not saved. */
  function Unsaved(sites: seq<Site>, xs: seq<Sample>): real
    requires |sites| == |xs|
  {
    if sites == [] then 0.0
    else
      var n := |sites| - 1;
      Unsaved(sites[..n], xs[..n]) + if Sampled(sites[n], xs[n]) && !xs[n].saved then Delta(sites[n]) else 0.0
  }

  /** What an event makes the next readings credit again. */
  function Repeated(w: World, e: Event): real {
    if Enabled(w, e) && e.QuotaTick? && w.account.status != Terminated && e.answers.listed
    then Unsaved(w.sites, e.samples) else 0.0
  }

  /** What an event takes out of reach of all readings: the uncredited part at a restart, and the
      old reading's amount when the new counter climbs past it. */
  function Forgotten(w: World, e: Event): real {
    if !Enabled(w, e) then 0.0
    else match e
      case Restart(i) => Delta(w.sites[i])
      case Traffic(i, rx, tx) =>
        var c, b := Total(w.sites[i].counter), Total(w.sites[i].baseline);
        if c < b <= c + rx + tx then b else 0.0
      case _ => 0.0
  }

  function SumRepeated(w: World, es: seq<Event>): real {
    if es == [] then 0.0
    else SumRepeated(w, es[..|es| - 1]) + Repeated(After(w, es[..|es| - 1]), es[|es| - 1])
  }

  function SumForgotten(w: World, es: seq<Event>): real {
    if es == [] then 0.0
    else SumForgotten(w, es[..|es| - 1]) + Forgotten(After(w, es[..|es| - 1]), es[|es| - 1])
  }

  lemma {:induction false} SampleLedger(sites: seq<Site>, xs: seq<Sample>)
    requires |sites| == |xs| && Metered(sites)
    ensures SumDeltas(sites, xs) + Pending(AfterSamples(sites, xs)) == Pending(sites) + Unsaved(sites, xs)
    ensures Unsaved(sites, xs) >= 0.0
  {
    if sites != [] {
      var n := |sites| - 1;
      SampleLedger(sites[..n], xs[..n]);
      assert AfterSamples(sites, xs)[..n] == AfterSamples(sites[..n], xs[..n]);
    }
  }

  /** The event keeps the books, with what it repeats and what it forgets. */
  ghost predicate KeepsLedger(w: World, e: Event) {
    var v := Apply(w, e);
    && Metered(v.sites) && Repeated(w, e) >= 0.0 && Forgotten(w, e) >= 0.0
    && v.credited + Pending(v.sites) + Forgotten(w, e) - v.flowed
       == w.credited + Pending(w.sites) - w.flowed + Repeated(w, e)
  }

  lemma TickLedger(w: World, e: Event)
    requires Metered(w.sites) && e.QuotaTick? && Enabled(w, e)
    ensures KeepsLedger(w, e)
  {
    if w.account.status != Terminated && e.answers.listed { SampleLedger(w.sites, e.samples); }
  }

  lemma TrafficLedger(w: World, i: nat, rx: real, tx: real)
    requires Metered(w.sites) && Enabled(w, Traffic(i, rx, tx))
    ensures KeepsLedger(w, Traffic(i, rx, tx))
  {
    var s, t := w.sites[i], Apply(w, Traffic(i, rx, tx)).sites[i];
    assert Delta(t) == Delta(s) + rx + tx - Forgotten(w, Traffic(i, rx, tx));
    PendingUpdate(w.sites, i, t);
  }

  lemma RestartLedger(w: World, i: nat)
    requires Metered(w.sites) && i < |w.sites|
    ensures KeepsLedger(w, Restart(i))
  {
    var t := Apply(w, Restart(i)).sites[i];
    assert Delta(t) == 0.0;
    PendingUpdate(w.sites, i, t);
  }

  lemma SiteLedger(w: World, e: Event)
    requires Metered(w.sites) && (e.SetRunning? || e.AddSite?) && Enabled(w, e)
    ensures KeepsLedger(w, e)
  {
    if e.SetRunning? {
      PendingUpdate(w.sites, e.site, Apply(w, e).sites[e.site]);
    } else {
      assert Apply(w, e).sites[..|w.sites|] == w.sites;
    }
  }

  lemma EventLedger(w: World, e: Event)
    requires Metered(w.sites)
    ensures KeepsLedger(w, e)
  {
    if !Enabled(w, e) { return; }
    match e
    case QuotaTick(_, _, _, _) => TickLedger(w, e);
    case Traffic(i, rx, tx) => TrafficLedger(w, i, rx, tx);
    case Restart(i) => RestartLedger(w, i);
    case _ => SiteLedger(w, e);
  }

  /** The books balance over every run, whether or not baselines are saved: credited, still pending
      and forgotten traffic make up exactly what flowed and what was counted again. */
  lemma {:induction false} Ledger(w: World, es: seq<Event>)
    requires Metered(w.sites) && w.credited + Pending(w.sites) == w.flowed
    ensures var v := After(w, es);
            && Metered(v.sites) && Pending(v.sites) >= 0.0
            && SumForgotten(w, es) >= 0.0 && SumRepeated(w, es) >= 0.0
            && v.credited + Pending(v.sites) + SumForgotten(w, es) == v.flowed + SumRepeated(w, es)
  {
    if es != [] {
      Ledger(w, es[..|es| - 1]);
      EventLedger(After(w, es[..|es| - 1]), es[|es| - 1]);
    }
    PendingNonNegative(After(w, es).sites);
  }

  /** So the deltas stay within the real traffic exactly as long as what was counted again is
      covered by what was forgotten or is still pending. */
  lemma OverCreditedExactly(w: World, es: seq<Event>)
    requires Metered(w.sites) && w.credited + Pending(w.sites) == w.flowed
    ensures After(w, es).credited <= After(w, es).flowed
            <==> SumRepeated(w, es) <= SumForgotten(w, es) + Pending(After(w, es).sites)
  {
    Ledger(w, es);
  }

  ghost predicate AheadOfBaselines(sites: seq<Site>) {
    forall i :: 0 <= i < |sites| ==> Total(sites[i].counter) >= Total(sites[i].baseline)
  }

  /** Without restarts nothing is forgotten, and with saved baselines nothing is counted again. */
  lemma {:induction false} SteadyRun(w: World, es: seq<Event>)
    requires Metered(w.sites) && AheadOfBaselines(w.sites) && forall e :: e in es ==> !e.Restart?
    ensures AheadOfBaselines(After(w, es).sites) && SumForgotten(w, es) == 0.0
    ensures (forall e :: e in es ==> BaselinesSaved(e)) ==> SumRepeated(w, es) == 0.0
  {
    if es != [] {
      var init, e := es[..|es| - 1], es[|es| - 1];
      assert es == init + [e];
      SteadyRun(w, init);
      var v := After(w, init);
      if Enabled(v, e) && e.QuotaTick? && BaselinesSaved(e) { NoneUnsaved(v.sites, e.samples); }
    }
  }

  lemma {:induction false} NoneUnsaved(sites: seq<Site>, xs: seq<Sample>)
    requires |sites| == |xs| && forall x :: x in xs && x.Reading? ==> x.saved
    ensures Unsaved(sites, xs) == 0.0
  {
    if sites != [] {
      assert xs == xs[..|xs| - 1] + [xs[|xs| - 1]];
      NoneUnsaved(sites[..|sites| - 1], xs[..|xs| - 1]);
    }
  }

  /** Conservation: without restarts and with saved baselines every byte that flowed is credited
      or waits for the next reading. */
  lemma NothingLost(w: World, es: seq<Event>)
    requires Metered(w.sites) && AheadOfBaselines(w.sites) && w.credited + Pending(w.sites) == w.flowed
    requires forall e :: e in es ==> !e.Restart? && BaselinesSaved(e)
    ensures After(w, es).credited + Pending(After(w, es).sites) == After(w, es).flowed
  {
    Ledger(w, es);
    SteadyRun(w, es);
  }

  /** A reading whose baseline write failed is credited again by the next tick: with one site
      and no traffic in between, the same traffic is counted twice. */
  lemma FailedSaveCountsTwice(s: Site, a: Account, month: int, quota: int, r: Answers)
    requires s.running && s.counter.rx >= 0.0 && s.counter.tx >= 0.0
    requires a.status != Terminated && r.listed
    ensures var w := World([s], a, Delta(s), 0.0, 0.0, 0);
            var first := Apply(w, QuotaTick([Reading(false)], month, quota, r));
            var second := Apply(first, QuotaTick([Reading(true)], month, quota, r));
            second.credited == 2.0 * Delta(s)
            && (second.credited <= second.flowed <==> Delta(s) == 0.0)
  {
    var xs, ys := [Reading(false)], [Reading(true)];
    assert [s][..0] == [] && xs[..0] == [] && ys[..0] == [];
    assert SumDeltas([s], xs) == Delta(s) == SumDeltas([s], ys);
    assert AfterSamples([s], xs) == [s];
  }
}
