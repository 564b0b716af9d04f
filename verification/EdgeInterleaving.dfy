/** Panel operations at the same time: each writes the database when it likes and then syncs;
    only the sync holds the mutex, from its two reads to the load of what it compiled. */
module EdgeInterleaving {
  import opened Wrappers
  import opened CaddyConfig
  import opened EdgeSync
  import opened EdgeCoherence
  import opened EdgeEquivalence

  /** A sync in progress: what it has read, from which database it read the table, and whether the
      edge's view of the database has moved since. */
  datatype Sync = Sync(rows: Option<seq<Row>>, settings: Option<Settings>, moved: bool, seen: Db)

  /** `owing` holds the operations with a visible write that no accepted sync of their own has
      followed; `stale` says that such a write came after the reads behind the published
      configuration; `shown` is what these read: the database of the table with the settings. */
  datatype World = World(db: Db, cfg: Config, syncs: map<nat, Sync>, owing: set<nat>, stale: bool, shown: Db)

  datatype Event =
    | Write(op: nat, next: Db)
    | Lock(op: nat)
    | ReadTable(op: nat, rows: seq<Row>)
    | ReadSettings(op: nat)
    | Load(op: nat, cfg: Config)
    | Fail(op: nat)

  /** An operation does not write while it syncs; the mutex, when there is one, admits one sync. */
  ghost predicate Possible(w: World, e: Event, base: BuildOptions, mutex: bool) {
    match e
    case Write(op, next) => ValidDb(next) && op !in w.syncs
    case Lock(op) => op !in w.syncs && (mutex ==> w.syncs == map[])
    case ReadTable(op, rows) => op in w.syncs && w.syncs[op].rows.None? && IsRoutingTable(w.db, rows)
    case ReadSettings(op) => op in w.syncs && w.syncs[op].rows.Some? && w.syncs[op].settings.None?
    case Load(op, cfg) =>
      op in w.syncs && w.syncs[op].rows.Some? && w.syncs[op].settings.Some?
      && Publishes(w.syncs[op].rows.value, Opts(base, w.syncs[op].settings.value), cfg)
    case Fail(op) => op in w.syncs
  }

  function AllMoved(syncs: map<nat, Sync>): map<nat, Sync> {
    map op | op in syncs :: syncs[op].(moved := true)
  }

  ghost function Apply(w: World, e: Event): World {
    match e
    case Write(op, next) =>
      if SameView(w.db, next) then w.(db := next)
      else World(next, w.cfg, AllMoved(w.syncs), w.owing + {op}, true, w.shown)
    case Lock(op) => w.(syncs := w.syncs[op := Sync(None, None, false, w.db)])
    case ReadTable(op, rows) =>
      if op in w.syncs then w.(syncs := w.syncs[op := Sync(Some(rows), None, false, w.db)]) else w
    case ReadSettings(op) =>
      if op in w.syncs then w.(syncs := w.syncs[op := w.syncs[op].(settings := Some(w.db.settings))]) else w
    case Load(op, cfg) =>
      if op in w.syncs && w.syncs[op].settings.Some? then
        World(w.db, cfg, w.syncs - {op}, w.owing - {op}, w.syncs[op].moved,
              w.syncs[op].seen.(settings := w.syncs[op].settings.value))
      else w
    case Fail(op) => w.(syncs := w.syncs - {op})
  }

  ghost function After(w: World, es: seq<Event>): World {
    if es == [] then w else Apply(After(w, es[..|es| - 1]), es[|es| - 1])
  }

  ghost predicate IsRun(w: World, es: seq<Event>, base: BuildOptions, mutex: bool) {
    es == [] || (IsRun(w, es[..|es| - 1], base, mutex)
                 && Possible(After(w, es[..|es| - 1]), es[|es| - 1], base, mutex))
  }

  ghost predicate Idle(w: World, base: BuildOptions) {
    ValidDb(w.db) && Coherent(w.db, base, w.cfg) && w.syncs == map[] && w.owing == {} && !w.stale && w.shown == w.db
  }

  // ---- The invariant ----------------------------------------------------------------

  ghost predicate OthersOwe(w: World, op: nat) { exists o :: o in w.owing && o != op }

  /** What a sync has read still describes the database, or another operation owes a sync. */
  ghost predicate GoodSync(w: World, op: nat, base: BuildOptions)
    requires op in w.syncs
  {
    var s := w.syncs[op];
    && (s.settings.Some? ==> s.rows.Some?)
    && (s.rows.Some? && !s.moved ==> IsRoutingTable(w.db, s.rows.value))
    && (s.settings.Some? && !s.moved ==> Opts(base, s.settings.value) == Opts(base, w.db.settings))
    && (s.rows.Some? && s.moved ==> OthersOwe(w, op))
  }

  ghost predicate Good(w: World, base: BuildOptions) {
    && ValidDb(w.db)
    && (!w.stale ==> Coherent(w.db, base, w.cfg))
    && (w.stale ==> w.owing != {})
    && (forall op :: op in w.syncs ==> GoodSync(w, op, base))
    && (forall p, q :: p in w.syncs && q in w.syncs ==> p == q)
  }

  lemma SameViewTable(db: Db, other: Db, rows: seq<Row>)
    requires SameView(db, other) && IsRoutingTable(db, rows)
    ensures IsRoutingTable(other, rows)
  {
  }

  lemma WriteGood(w: World, op: nat, next: Db, base: BuildOptions)
    requires Good(w, base) && Possible(w, Write(op, next), base, true)
    ensures Good(Apply(w, Write(op, next)), base)
  {
    var v := Apply(w, Write(op, next));
    if SameView(w.db, next) {
      if !w.stale { SameViewCoherent(w.db, next, base, w.cfg); }
      forall q | q in v.syncs ensures GoodSync(v, q, base) {
        assert GoodSync(w, q, base);
        var s := w.syncs[q];
        if s.rows.Some? && !s.moved { SameViewTable(w.db, next, s.rows.value); }
        if s.rows.Some? && s.moved {
          var o :| o in w.owing && o != q;
          assert o in v.owing;
        }
      }
    } else {
      assert op in v.owing;
      forall q | q in v.syncs ensures GoodSync(v, q, base) {
        assert GoodSync(w, q, base) && q != op;
      }
    }
  }

  lemma LoadGood(w: World, op: nat, cfg: Config, base: BuildOptions)
    requires Good(w, base) && Possible(w, Load(op, cfg), base, true)
    ensures Good(Apply(w, Load(op, cfg)), base)
  {
    assert GoodSync(w, op, base);
    var s, v := w.syncs[op], Apply(w, Load(op, cfg));
    if s.moved {
      var o :| o in w.owing && o != op;
      assert o in v.owing;
    } else {
      assert Publishes(s.rows.value, Opts(base, w.db.settings), cfg);
    }
  }

  /** Another sync's turn, which neither writes nor publishes, leaves a sync as it was. */
  lemma SameSync(w: World, v: World, q: nat, base: BuildOptions)
    requires q in w.syncs && q in v.syncs && v.syncs[q] == w.syncs[q] && v.db == w.db && v.owing == w.owing
    requires GoodSync(w, q, base)
    ensures GoodSync(v, q, base)
  {
    if OthersOwe(w, q) {
      var o :| o in w.owing && o != q;
      assert o in v.owing;
    }
  }

  lemma FreshReads(w: World, e: Event, base: BuildOptions)
    requires Good(w, base) && Possible(w, e, base, true) && (e.Lock? || e.ReadTable? || e.ReadSettings?)
    ensures GoodSync(Apply(w, e), e.op, base)
  {
    if e.ReadSettings? {
      assert GoodSync(w, e.op, base);
      if OthersOwe(w, e.op) {
        var o :| o in w.owing && o != e.op;
        assert o in Apply(w, e).owing;
      }
    }
  }

  lemma ReadGood(w: World, e: Event, base: BuildOptions)
    requires Good(w, base) && Possible(w, e, base, true) && (e.Lock? || e.ReadTable? || e.ReadSettings? || e.Fail?)
    ensures Good(Apply(w, e), base)
  {
    var v := Apply(w, e);
    forall q | q in v.syncs ensures GoodSync(v, q, base) {
      if q == e.op { FreshReads(w, e, base); } else { SameSync(w, v, q, base); }
    }
  }

  lemma StepGood(w: World, e: Event, base: BuildOptions)
    requires Good(w, base) && Possible(w, e, base, true)
    ensures Good(Apply(w, e), base)
  {
    match e
    case Write(op, next) => WriteGood(w, op, next, base);
    case Load(op, cfg) => LoadGood(w, op, cfg, base);
    case _ => ReadGood(w, e, base);
  }

  lemma {:induction false} AlwaysGood(w: World, es: seq<Event>, base: BuildOptions)
    requires Idle(w, base) && IsRun(w, es, base, true)
    ensures Good(After(w, es), base)
  {
    if es != [] {
      AlwaysGood(w, es[..|es| - 1], base);
      StepGood(After(w, es[..|es| - 1]), es[|es| - 1], base);
    }
  }

  /** Over every interleaving of any operations, whatever each writes: at every moment when each
      has had a sync of its own accepted after its last visible write, the published configuration
      is the one the database asks for; and it is so already when the reads of any accepted sync
      came after all visible writes. */
  lemma QuietIsCoherent(w: World, es: seq<Event>, base: BuildOptions)
    requires Idle(w, base) && IsRun(w, es, base, true)
    ensures var v := After(w, es);
            ValidDb(v.db) && (v.owing == {} || !v.stale ==> Coherent(v.db, base, v.cfg))
  {
    AlwaysGood(w, es, base);
  }

  // ---- What `owing` means -----------------------------------------------------------

  /** The i-th event is a visible write of the operation, and none of its loads comes after. */
  ghost predicate Unsettled(w: World, es: seq<Event>, op: nat, i: nat) {
    && i < |es| && es[i].Write? && es[i].op == op && !SameView(After(w, es[..i]).db, es[i].next)
    && forall j :: i < j < |es| ==> !(es[j].Load? && es[j].op == op)
  }

  lemma UnsettledBefore(w: World, es: seq<Event>, op: nat, i: nat)
    requires es != [] && i < |es| - 1
    ensures var init, e := es[..|es| - 1], es[|es| - 1];
            Unsettled(w, es, op, i) <==> Unsettled(w, init, op, i) && !(e.Load? && e.op == op)
  {
    var init := es[..|es| - 1];
    assert init[..i] == es[..i];
    assert forall j :: 0 <= j < |init| ==> init[j] == es[j];
  }

  lemma OwingStep(v: World, e: Event, op: nat, base: BuildOptions, mutex: bool)
    requires Possible(v, e, base, mutex)
    ensures op in Apply(v, e).owing
            <==> (e.Write? && e.op == op && !SameView(v.db, e.next)) || (op in v.owing && !(e.Load? && e.op == op))
  {
  }

  lemma UnsettledNow(w: World, es: seq<Event>, op: nat)
    requires es != []
    ensures var init, e := es[..|es| - 1], es[|es| - 1];
            (exists i: nat :: Unsettled(w, es, op, i))
            <==> (e.Write? && e.op == op && !SameView(After(w, init).db, e.next))
                 || ((exists i: nat :: Unsettled(w, init, op, i)) && !(e.Load? && e.op == op))
  {
    var n := |es| - 1;
    var init, e := es[..n], es[n];
    assert Unsettled(w, es, op, n) <==> e.Write? && e.op == op && !SameView(After(w, init).db, e.next);
    if i: nat :| Unsettled(w, init, op, i) { UnsettledBefore(w, es, op, i); }
    if i: nat :| Unsettled(w, es, op, i) {
      if i < n { UnsettledBefore(w, es, op, i); }
    }
  }

  /** An operation owes a sync exactly when it has a visible write with no load of its own after it. */
  lemma {:induction false} OwingExactly(w: World, es: seq<Event>, base: BuildOptions, mutex: bool, op: nat)
    requires Idle(w, base) && IsRun(w, es, base, mutex)
    ensures op in After(w, es).owing <==> exists i: nat :: Unsettled(w, es, op, i)
  {
    if es != [] {
      OwingExactly(w, es[..|es| - 1], base, mutex, op);
      OwingStep(After(w, es[..|es| - 1]), es[|es| - 1], op, base, mutex);
      UnsettledNow(w, es, op);
    }
  }

  // ---- Why the mutex, and what it does not cover --------------------------------------

  lemma OneMore(w: World, es: seq<Event>, e: Event, base: BuildOptions, mutex: bool)
    requires IsRun(w, es, base, mutex) && Possible(After(w, es), e, base, mutex)
    ensures IsRun(w, es + [e], base, mutex) && After(w, es + [e]) == Apply(After(w, es), e)
  {
    assert (es + [e])[..|es|] == es;
  }

  lemma LockNext(w: World, es: seq<Event>, op: nat, base: BuildOptions, mutex: bool) returns (out: seq<Event>)
    requires IsRun(w, es, base, mutex) && op !in After(w, es).syncs && (mutex ==> After(w, es).syncs == map[])
    ensures IsRun(w, out, base, mutex)
    ensures var v := After(w, es); After(w, out) == v.(syncs := v.syncs[op := Sync(None, None, false, v.db)])
    ensures forall e :: e in out && e.Write? ==> e in es
  {
    OneMore(w, es, Lock(op), base, mutex);
    out := es + [Lock(op)];
  }

  lemma TableNext(w: World, es: seq<Event>, op: nat, base: BuildOptions, mutex: bool, rows: seq<Row>)
    returns (out: seq<Event>)
    requires IsRun(w, es, base, mutex) && op in After(w, es).syncs && After(w, es).syncs[op].rows.None?
    requires IsRoutingTable(After(w, es).db, rows)
    ensures IsRun(w, out, base, mutex)
    ensures var v := After(w, es);
            After(w, out) == v.(syncs := v.syncs[op := Sync(Some(rows), None, false, v.db)])
    ensures forall e :: e in out && e.Write? ==> e in es
  {
    OneMore(w, es, ReadTable(op, rows), base, mutex);
    out := es + [ReadTable(op, rows)];
  }

  lemma SettingsNext(w: World, es: seq<Event>, op: nat, base: BuildOptions, mutex: bool) returns (out: seq<Event>)
    requires IsRun(w, es, base, mutex) && op in After(w, es).syncs
    requires After(w, es).syncs[op].rows.Some? && After(w, es).syncs[op].settings.None?
    ensures IsRun(w, out, base, mutex)
    ensures var v := After(w, es);
            After(w, out) == v.(syncs := v.syncs[op := v.syncs[op].(settings := Some(v.db.settings))])
    ensures forall e :: e in out && e.Write? ==> e in es
  {
    OneMore(w, es, ReadSettings(op), base, mutex);
    out := es + [ReadSettings(op)];
  }

  /** A sync up to its load, with nothing in between. */
  lemma ReadSync(w: World, es: seq<Event>, op: nat, base: BuildOptions, mutex: bool, rows: seq<Row>)
    returns (out: seq<Event>)
    requires IsRun(w, es, base, mutex) && op !in After(w, es).syncs && (mutex ==> After(w, es).syncs == map[])
    requires IsRoutingTable(After(w, es).db, rows)
    ensures IsRun(w, out, base, mutex)
    ensures var v := After(w, es);
            After(w, out) == v.(syncs := v.syncs[op := Sync(Some(rows), Some(v.db.settings), false, v.db)])
    ensures forall e :: e in out && e.Write? ==> e in es
  {
    var locked := LockNext(w, es, op, base, mutex);
    var read := TableNext(w, locked, op, base, mutex, rows);
    out := SettingsNext(w, read, op, base, mutex);
  }

  /** One whole sync by `op`, with nothing in between. */
  lemma WholeSync(w: World, es: seq<Event>, op: nat, base: BuildOptions, mutex: bool, cfg: Config)
    returns (out: seq<Event>)
    requires IsRun(w, es, base, mutex) && op !in After(w, es).syncs && (mutex ==> After(w, es).syncs == map[])
    requires Coherent(After(w, es).db, base, cfg)
    ensures IsRun(w, out, base, mutex)
    ensures var v := After(w, es); After(w, out) == World(v.db, cfg, v.syncs, v.owing - {op}, false, v.db)
    ensures forall e :: e in out && e.Write? ==> e in es
  {
    var v := After(w, es);
    var rows :| IsRoutingTable(v.db, rows) && Publishes(rows, Opts(base, v.db.settings), cfg);
    var read := ReadSync(w, es, op, base, mutex, rows);
    out := LoadNext(w, read, op, base, mutex, cfg);
    AddAndDrop(v.syncs, op, Sync(Some(rows), Some(v.db.settings), false, v.db));
  }

  lemma AddAndDrop<K, V>(m: map<K, V>, k: K, v: V)
    requires k !in m
    ensures m[k := v] - {k} == m
  {
  }

  lemma LoadNext(w: World, es: seq<Event>, op: nat, base: BuildOptions, mutex: bool, cfg: Config)
    returns (out: seq<Event>)
    requires IsRun(w, es, base, mutex) && op in After(w, es).syncs
    requires var s := After(w, es).syncs[op];
             s.rows.Some? && s.settings.Some? && Publishes(s.rows.value, Opts(base, s.settings.value), cfg)
    ensures IsRun(w, out, base, mutex)
    ensures var v := After(w, es);
            After(w, out) == World(v.db, cfg, v.syncs - {op}, v.owing - {op}, v.syncs[op].moved,
                                   v.syncs[op].seen.(settings := v.syncs[op].settings.value))
    ensures forall e :: e in out && e.Write? ==> e in es
  {
    OneMore(w, es, Load(op, cfg), base, mutex);
    out := es + [Load(op, cfg)];
  }

  lemma WriteNext(w: World, es: seq<Event>, op: nat, base: BuildOptions, mutex: bool, next: Db)
    returns (out: seq<Event>)
    requires IsRun(w, es, base, mutex) && op !in After(w, es).syncs && ValidDb(next)
    requires !SameView(After(w, es).db, next)
    ensures IsRun(w, out, base, mutex)
    ensures var v := After(w, es);
            After(w, out) == World(next, v.cfg, AllMoved(v.syncs), v.owing + {op}, true, v.shown)
    ensures forall e :: e in out && e.Write? ==> e in es || e == Write(op, next)
  {
    OneMore(w, es, Write(op, next), base, mutex);
    out := es + [Write(op, next)];
  }

  lemma FailNext(w: World, es: seq<Event>, op: nat, base: BuildOptions, mutex: bool) returns (out: seq<Event>)
    requires IsRun(w, es, base, mutex) && op in After(w, es).syncs
    ensures IsRun(w, out, base, mutex)
    ensures var v := After(w, es); After(w, out) == v.(syncs := v.syncs - {op})
    ensures forall e :: e in out && e.Write? ==> e in es
  {
    OneMore(w, es, Fail(op), base, mutex);
    out := es + [Fail(op)];
  }

  lemma LateLoad(w: World, es: seq<Event>, base: BuildOptions, rows: seq<Row>, cfg: Config)
    requires IsRun(w, es, base, false) && Publishes(rows, Opts(base, w.db.settings), cfg)
    requires After(w, es).syncs == map[1 := Sync(Some(rows), Some(w.db.settings), true, w.db)]
    requires After(w, es).owing == {}
    ensures IsRun(w, es + [Load(1, cfg)], base, false)
    ensures var v := After(w, es + [Load(1, cfg)]);
            v.syncs == map[] && v.owing == {} && v.cfg == cfg && v.db == After(w, es).db
  {
    OneMore(w, es, Load(1, cfg), base, false);
  }

  lemma OvertakenSync(w: World, base: BuildOptions, rows: seq<Row>, next: Db, cfg: Config) returns (es: seq<Event>)
    requires w.syncs == map[] && w.owing == {} && ValidDb(next) && !SameView(w.db, next)
    requires IsRoutingTable(w.db, rows) && Publishes(rows, Opts(base, w.db.settings), w.cfg)
    requires Coherent(next, base, cfg)
    ensures IsRun(w, es, base, false) && After(w, es).owing == {} && After(w, es).syncs == map[]
    ensures After(w, es).db == next && After(w, es).cfg == w.cfg
  {
    var started := ReadSync(w, [], 1, base, false, rows);
    var written := WriteNext(w, started, 2, base, false, next);
    assert After(w, written).syncs == map[1 := Sync(Some(rows), Some(w.db.settings), true, w.db)];
    var synced := WholeSync(w, written, 2, base, false, cfg);
    LateLoad(w, synced, base, rows, w.cfg);
    es := synced + [Load(1, w.cfg)];
  }

  /** Without the mutex a slow sync can load what it read before another operation's write, after
      that operation's own accepted sync: for any visible write a run ends with nobody owing
      anything and the configuration from before it, true only if the edge cannot tell the write. */
  lemma WithoutMutex(w: World, base: BuildOptions, next: Db) returns (es: seq<Event>)
    requires Idle(w, base) && ValidDb(next) && !SameView(w.db, next)
    ensures IsRun(w, es, base, false) && After(w, es).owing == {} && After(w, es).syncs == map[]
    ensures After(w, es).db == next && After(w, es).cfg == w.cfg
    ensures Coherent(After(w, es).db, base, After(w, es).cfg) <==> ShowsSame(w.db, next, base)
  {
    var cfg := CoherentExists(next, base);
    var rows :| IsRoutingTable(w.db, rows) && Publishes(rows, Opts(base, w.db.settings), w.cfg);
    es := OvertakenSync(w, base, rows, next, cfg);
    TrueToBoth(w.db, next, base, w.cfg);
  }

  // ---- Exactly when a run ends true to the database ----------------------------------

  /** What was read is kept with where it was read. */
  ghost predicate Recorded(w: World, base: BuildOptions) {
    && ValidDb(w.db) && ValidDb(w.shown) && Coherent(w.shown, base, w.cfg)
    && forall op :: op in w.syncs ==> SeenWell(w.syncs[op])
  }

  ghost predicate SeenWell(s: Sync) {
    ValidDb(s.seen) && (s.rows.Some? ==> IsRoutingTable(s.seen, s.rows.value))
  }

  /** A table and settings read at different moments are those of one valid database. */
  lemma ReadTogether(seen: Db, settings: Settings, rows: seq<Row>, base: BuildOptions, cfg: Config)
    requires ValidDb(seen) && IsRoutingTable(seen, rows) && Publishes(rows, Opts(base, settings), cfg)
    ensures ValidDb(seen.(settings := settings)) && Coherent(seen.(settings := settings), base, cfg)
  {
    SameTable(seen, seen.(settings := settings), rows);
  }

  lemma LoadRecorded(w: World, op: nat, cfg: Config, base: BuildOptions, mutex: bool)
    requires Recorded(w, base) && Possible(w, Load(op, cfg), base, mutex)
    ensures Recorded(Apply(w, Load(op, cfg)), base)
  {
    var s, v := w.syncs[op], Apply(w, Load(op, cfg));
    assert SeenWell(s);
    ReadTogether(s.seen, s.settings.value, s.rows.value, base, cfg);
    forall q | q in v.syncs ensures SeenWell(v.syncs[q]) { assert SeenWell(w.syncs[q]); }
  }

  lemma SameTable(db: Db, other: Db, rows: seq<Row>)
    requires other == db.(settings := other.settings) && IsRoutingTable(db, rows)
    ensures IsRoutingTable(other, rows)
  {
    forall d ensures Visible(db, d) <==> Visible(other, d) {}
    forall d | Visible(db, d) ensures RowOf(db, d) == RowOf(other, d) {}
  }

  lemma StepRecorded(w: World, e: Event, base: BuildOptions, mutex: bool)
    requires Recorded(w, base) && Possible(w, e, base, mutex)
    ensures Recorded(Apply(w, e), base)
  {
    if e.Load? {
      LoadRecorded(w, e.op, e.cfg, base, mutex);
    } else {
      var v := Apply(w, e);
      forall op | op in v.syncs ensures SeenWell(v.syncs[op]) {
        if op in w.syncs { assert SeenWell(w.syncs[op]); }
      }
    }
  }

  lemma {:induction false} AlwaysRecorded(w: World, es: seq<Event>, base: BuildOptions, mutex: bool)
    requires Idle(w, base) && IsRun(w, es, base, mutex)
    ensures Recorded(After(w, es), base)
  {
    if es != [] {
      AlwaysRecorded(w, es[..|es| - 1], base, mutex);
      StepRecorded(After(w, es[..|es| - 1]), es[|es| - 1], base, mutex);
    }
  }

  /** Over every interleaving of any writes, with or without the mutex, whatever loads are refused
      and whatever is written back: the published configuration is true to the database exactly when
      the edge cannot tell the database from what the last accepted load had read. */
  lemma InterleavedExactly(w: World, es: seq<Event>, base: BuildOptions, mutex: bool)
    requires Idle(w, base) && IsRun(w, es, base, mutex)
    ensures var v := After(w, es);
            Coherent(v.db, base, v.cfg) <==> ShowsSame(v.shown, v.db, base)
  {
    AlwaysRecorded(w, es, base, mutex);
    TrueToBoth(After(w, es).shown, After(w, es).db, base, After(w, es).cfg);
  }

  // ---- Settings and their rollback ----------------------------------------------------

  ghost predicate OnlySettings(w: World, es: seq<Event>) {
    forall e :: e in es && e.Write? ==> e.next == w.db.(settings := e.next.settings)
  }

  /** All databases of the run differ in their settings only. */
  ghost predicate Alike(w: World, db: Db) { db == w.db.(settings := db.settings) }

  ghost predicate AllAlike(w: World, v: World) {
    Alike(w, v.db) && Alike(w, v.shown) && forall op :: op in v.syncs ==> Alike(w, v.syncs[op].seen)
  }

  lemma AlikeStep(w: World, v: World, e: Event)
    requires AllAlike(w, v) && (e.Write? ==> Alike(w, e.next))
    ensures AllAlike(w, Apply(v, e))
  {
    match e
    case Write(_, next) => AlikeWrite(w, v, next);
    case _ =>
  }

  lemma AlikeWrite(w: World, v: World, next: Db)
    requires AllAlike(w, v) && Alike(w, next)
    ensures forall op :: op in AllMoved(v.syncs) ==> Alike(w, AllMoved(v.syncs)[op].seen)
  {
  }

  lemma {:induction false} SettingsRun(w: World, es: seq<Event>)
    requires w.syncs == map[] && w.shown == w.db && OnlySettings(w, es)
    ensures AllAlike(w, After(w, es))
  {
    if es != [] {
      var init, e := es[..|es| - 1], es[|es| - 1];
      assert e in es && forall x :: x in init ==> x in es;
      SettingsRun(w, init);
      AlikeStep(w, After(w, init), e);
    }
  }

  /** Runs of settings changes, their syncs and their rollbacks, with or without the mutex: the edge
      ends true to the database exactly when the settings last published give the guards that the
      stored ones give, or nothing is visible. */
  lemma SettingsRunsExactly(w: World, es: seq<Event>, base: BuildOptions, mutex: bool)
    requires Idle(w, base) && IsRun(w, es, base, mutex) && OnlySettings(w, es)
    ensures var v := After(w, es);
            Coherent(v.db, base, v.cfg)
            <==> Guards(Opts(base, v.shown.settings)) == Guards(Opts(base, v.db.settings))
                 || !exists d :: Visible(w.db, d)
  {
    var v := After(w, es);
    SettingsRun(w, es);
    AlwaysRecorded(w, es, base, mutex);
    InterleavedExactly(w, es, base, mutex);
    assert v.db == v.shown.(settings := v.db.settings);
    SettingsShow(v.shown, v.db.settings, base);
    forall d ensures Visible(v.shown, d) <==> Visible(w.db, d) {}
  }

  /** A settings change whose own sync fails. */
  lemma FailedChange(w: World, base: BuildOptions, next: Db) returns (es: seq<Event>)
    requires Idle(w, base) && ValidDb(next) && !SameView(w.db, next)
    ensures IsRun(w, es, base, true)
    ensures After(w, es) == World(next, w.cfg, map[], {1}, true, w.shown)
    ensures forall e :: e in es && e.Write? ==> e == Write(1, next)
  {
    var none: seq<Event> := [];
    var written := WriteNext(w, none, 1, base, true, next);
    var locked := LockNext(w, written, 1, base, true);
    es := FailNext(w, locked, 1, base, true);
    AddAndDrop(map[], 1, Sync(None, None, false, next));
  }

  lemma GuardsSeen(db: Db, other: Db, base: BuildOptions)
    requires Guards(Opts(base, db.settings)) != Guards(Opts(base, other.settings))
    ensures !SameView(db, other) && !SameView(other, db)
  {
  }

  lemma RolledBack(w: World, base: BuildOptions, settings: Settings) returns (es: seq<Event>)
    requires Idle(w, base) && Guards(Opts(base, settings)) != Guards(Opts(base, w.db.settings))
    ensures IsRun(w, es, base, true) && OnlySettings(w, es)
    ensures var v := After(w, es); v.syncs == map[] && v.db == w.db && v.shown.settings == settings
  {
    var next := w.db.(settings := settings);
    var cfg := CoherentExists(next, base);
    GuardsSeen(w.db, next, base);
    var failed := FailedChange(w, base, next);
    es := PublishedThenBack(w, failed, base, next, w.db, cfg);
    assert w.db == w.db.(settings := w.db.settings);
  }

  /** Another operation's sync, and then the write that takes the change back. */
  lemma PublishedThenBack(w: World, es: seq<Event>, base: BuildOptions, next: Db, back: Db, cfg: Config)
    returns (out: seq<Event>)
    requires IsRun(w, es, base, true) && After(w, es).db == next && After(w, es).syncs == map[]
    requires Coherent(next, base, cfg) && ValidDb(back) && !SameView(next, back)
    ensures IsRun(w, out, base, true)
    ensures var v := After(w, out); v.db == back && v.shown == next && v.syncs == map[]
    ensures forall e :: e in out && e.Write? ==> e in es || e == Write(1, back)
  {
    var synced := WholeSync(w, es, 2, base, true, cfg);
    out := WriteNext(w, synced, 1, base, true, back);
  }

  /** The mutex does not cover the rollback of a settings change. When the change's own load fails
      for a passing reason, such as a timeout, a sync of another operation can come before the
      rollback and publish the new settings; the rollback leaves them there. */
  lemma RollbackRace(w: World, base: BuildOptions, settings: Settings) returns (es: seq<Event>)
    requires Idle(w, base) && Guards(Opts(base, settings)) != Guards(Opts(base, w.db.settings))
    ensures IsRun(w, es, base, true) && OnlySettings(w, es)
    ensures var v := After(w, es);
            && v.syncs == map[] && v.db == w.db && v.shown.settings == settings
            && (Coherent(v.db, base, v.cfg) <==> !exists d :: Visible(w.db, d))
  {
    es := RolledBack(w, base, settings);
    SettingsRunsExactly(w, es, base, true);
  }
}
