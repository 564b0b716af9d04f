/** The sliding-window rate limiter: slices filtered in place, keys collected from time to
    time, and the specification that never forgets a call. Times are nanoseconds. */
module RateLimiting {
  // ---- The state without its memory layout ------------------------------------------

  datatype Limiter = Limiter(hits: map<string, seq<int>>, lastGC: int)

  function Kept(times: seq<int>, cutoff: int): (out: seq<int>)
    ensures |out| <= |times|
    ensures forall t :: t in out <==> t in times && t > cutoff
  {
    if times == [] then []
    else
      var t := times[|times| - 1];
      assert times == times[..|times| - 1] + [t];
      Kept(times[..|times| - 1], cutoff) + if t > cutoff then [t] else []
  }

  function TimesOf(hits: map<string, seq<int>>, key: string): seq<int> {
    if key in hits then hits[key] else []
  }

  predicate Stale(times: seq<int>, cutoff: int) { times == [] || times[|times| - 1] < cutoff }

  /** The map without the stale keys among those visited. */
  function Swept(hits: map<string, seq<int>>, cutoff: int, visited: set<string>): map<string, seq<int>> {
    map k | k in hits && !(k in visited && Stale(hits[k], cutoff)) :: hits[k]
  }

  lemma SweptNext(hits: map<string, seq<int>>, cutoff: int, visited: set<string>, k: string)
    requires k in hits && k !in visited
    ensures k in Swept(hits, cutoff, visited) && Swept(hits, cutoff, visited)[k] == hits[k]
    ensures Swept(hits, cutoff, visited + {k}) ==
            if Stale(hits[k], cutoff) then Swept(hits, cutoff, visited) - {k} else Swept(hits, cutoff, visited)
  {
  }

  function Collected(l: Limiter, window: int, now: int): Limiter {
    if now - l.lastGC > 5 * window
    then Limiter(Swept(l.hits, now - window, l.hits.Keys), now)
    else l
  }

  function Step(l: Limiter, limit: int, window: int, key: string, now: int): (Limiter, bool) {
    var c := Collected(l, window, now);
    var kept := Kept(TimesOf(c.hits, key), now - window);
    if |kept| >= limit then (c.(hits := c.hits[key := kept]), false)
    else (c.(hits := c.hits[key := kept + [now]]), true)
  }

  // ---- The code, with shared backing arrays -----------------------------------------

  /** A Go slice: a prefix of a backing array. */
  datatype Slice = Slice(buf: array<int>, len: nat)

  /** `kept := s[:0]` and append over the same backing array: the write index never passes
      the read index, so nothing unread is overwritten. */
  method FilterInPlace(buf: array<int>, len: nat, cutoff: int) returns (kept: nat)
    requires len <= buf.Length
    modifies buf
    ensures kept <= len && buf[..kept] == Kept(old(buf[..len]), cutoff)
  {
    kept := 0;
    ghost var was := buf[..len];
    for n := 0 to len
      invariant kept <= n && buf[..kept] == Kept(was[..n], cutoff)
      invariant buf[n..len] == was[n..]
    {
      assert was[..n + 1][..n] == was[..n];
      var t := buf[n];
      assert t == buf[n..len][0] == was[n];
      if t > cutoff {
        buf[kept] := t;
        kept := kept + 1;
        assert buf[..kept] == buf[..kept - 1] + [t];
      }
      assert buf[n + 1..len] == was[n + 1..];
    }
    assert was[..len] == was;
  }

  class RateLimiter {
    var hits: map<string, Slice>
    var lastGC: int
    const limit: int
    const window: int
    ghost var times: map<string, seq<int>>  // what each slice holds
    ghost var buffers: set<array<int>>

    ghost predicate Valid()
      reads this, buffers
    {
      && times.Keys == hits.Keys
      && (forall k :: k in hits ==> hits[k].buf in buffers && hits[k].len <= hits[k].buf.Length
                                    && times[k] == hits[k].buf[..hits[k].len])
      && (forall k, l :: k in hits && l in hits && k != l ==> hits[k].buf != hits[l].buf)
    }

    ghost function View(): Limiter
      reads this
    {
      Limiter(times, lastGC)
    }

    constructor (limit: int, window: int, now: int)
      ensures Valid() && View() == Limiter(map[], now) && buffers == {}
      ensures this.limit == limit && this.window == window
    {
      this.limit, this.window := limit, window;
      hits, lastGC := map[], now;
      times, buffers := map[], {};
    }

    method Collect(cutoff: int)
      requires Valid()
      modifies this`hits, this`times
      ensures Valid() && times == Swept(old(times), cutoff, old(times).Keys)
    {
      ghost var was, done: set<string> := times, {};
      var todo := hits.Keys;
      assert times == Swept(was, cutoff, {});
      while todo != {}
        invariant Valid() && done !! todo && done + todo == was.Keys
        invariant times == Swept(was, cutoff, done)
        decreases todo
      {
        var k :| k in todo;
        Visit(k, cutoff, was, done);
        todo, done := todo - {k}, done + {k};
      }
    }

    /** One round of the loop above, after the keys in `done`. */
    method Visit(key: string, cutoff: int, ghost was: map<string, seq<int>>, ghost done: set<string>)
      requires Valid() && key in was && key !in done && times == Swept(was, cutoff, done)
      modifies this`hits, this`times
      ensures Valid() && times == Swept(was, cutoff, done + {key})
    {
      SweptNext(was, cutoff, done, key);
      var s := hits[key];
      if s.len == 0 || s.buf[s.len - 1] < cutoff {
        hits := hits - {key};
        times := times - {key};
      }
    }

    method Allow(key: string, now: int) returns (ok: bool)
      requires Valid()
      modifies this, buffers
      ensures Valid() && (View(), ok) == Step(old(View()), limit, window, key, now)
      ensures fresh(buffers - old(buffers))
    {
      var cutoff := now - window;
      if now - lastGC > 5 * window {
        Collect(cutoff);
        lastGC := now;
      }
      ok := Admit(key, now, cutoff);
    }

    /** hits[key]: an absent key reads as the nil slice. */
    method SliceOf(key: string) returns (slice: Slice)
      requires Valid()
      ensures slice.len <= slice.buf.Length && slice.buf[..slice.len] == TimesOf(times, key)
      ensures if key in hits then slice == hits[key] else fresh(slice.buf)
    {
      if key in hits { return hits[key]; }
      var empty := new int[0];
      return Slice(empty, 0);
    }

    method Admit(key: string, now: int, cutoff: int) returns (ok: bool)
      requires Valid()
      modifies this`hits, this`times, this`buffers, buffers
      ensures Valid() && fresh(buffers - old(buffers))
      ensures var kept := Kept(TimesOf(old(times), key), cutoff);
              && ok == (|kept| < limit)
              && times == old(times)[key := if ok then kept + [now] else kept]
    {
      var slice := SliceOf(key);
      var kept := FilterInPlace(slice.buf, slice.len, cutoff);
      ghost var left := slice.buf[..kept];
      if kept >= limit {
        Store(key, Slice(slice.buf, kept));
        return false;
      }
      var grown := Append(slice.buf, kept, now);
      Store(key, Slice(grown, kept + 1));
      assert times[key] == left + [now];
      return true;
    }

    method Store(key: string, s: Slice)
      requires s.len <= s.buf.Length && times.Keys == hits.Keys
      requires forall k :: k in hits && k != key ==>
                 hits[k].buf in buffers && hits[k].len <= hits[k].buf.Length
                 && times[k] == hits[k].buf[..hits[k].len] && hits[k].buf != s.buf
      requires forall k, l :: k in hits && l in hits && k != l ==> hits[k].buf != hits[l].buf
      modifies this`hits, this`times, this`buffers
      ensures Valid() && times == old(times)[key := s.buf[..s.len]] && buffers == old(buffers) + {s.buf}
    {
      hits := hits[key := s];
      times := times[key := s.buf[..s.len]];
      buffers := buffers + {s.buf};
    }
  }

  /** append(s, x): in place while there is room, otherwise into a larger array. */
  method Append(buf: array<int>, len: nat, x: int) returns (out: array<int>)
    requires len <= buf.Length
    modifies buf
    ensures len < out.Length && out[..len + 1] == old(buf[..len]) + [x]
    ensures out == buf || fresh(out)
  {
    if len < buf.Length {
      out := buf;
    } else {
      out := new int[2 * len + 1];
      for n := 0 to len
        invariant forall i :: 0 <= i < n ==> out[i] == buf[i]
        invariant buf[..] == old(buf[..])
      {
        out[n] := buf[n];
      }
    }
    out[len] := x;
  }

  /** A collection takes place once more than five windows have passed since the last one, and then
      drops exactly the keys without times or whose last time is before the window. */
  lemma CollectionExactly(l: Limiter, window: int, now: int, key: string)
    ensures var c := Collected(l, window, now); var due := now - l.lastGC > 5 * window;
            && c.lastGC == (if due then now else l.lastGC)
            && (key in c.hits <==> key in l.hits && !(due && (l.hits[key] == []
                                                             || l.hits[key][|l.hits[key]| - 1] < now - window)))
            && (key in c.hits ==> c.hits[key] == l.hits[key])
  {
  }

  /** A call keeps the key's times of the window, in order and as often as they were, and adds its own
      exactly when fewer than `limit` are left; other keys only change by collection. */
  lemma CallExactly(l: Limiter, limit: int, window: int, key: string, now: int)
    ensures var c := Collected(l, window, now); var (d, ok) := Step(l, limit, window, key, now);
            exists kept :: IsFilter(TimesOf(c.hits, key), kept, now - window)
              && ok == (|kept| < limit) && d == c.(hits := c.hits[key := if ok then kept + [now] else kept])
  {
    KeptIsFilter(TimesOf(Collected(l, window, now).hits, key), now - window);
  }

  /** `kept` is `times` without those not after the cutoff. */
  ghost predicate IsFilter(times: seq<int>, kept: seq<int>, cutoff: int) {
    if times == [] then kept == []
    else if times[0] > cutoff then kept != [] && kept[0] == times[0] && IsFilter(times[1..], kept[1..], cutoff)
    else IsFilter(times[1..], kept, cutoff)
  }

  lemma {:induction false} KeptIsFilter(times: seq<int>, cutoff: int)
    ensures IsFilter(times, Kept(times, cutoff), cutoff)
  {
    if times != [] {
      KeptIsFilter(times[1..], cutoff);
      KeptConcat([times[0]], times[1..], cutoff);
      assert [times[0]] + times[1..] == times && [times[0]][..0] == [];
      assert Kept([times[0]], cutoff) == if times[0] > cutoff then [times[0]] else [];
      assert [] + Kept(times[1..], cutoff) == Kept(times[1..], cutoff);
    }
  }

  // ---- The specification that never forgets -----------------------------------------

  datatype Call = Call(key: string, now: int)

  predicate Monotone(calls: seq<Call>) {
    forall i, j :: 0 <= i < j < |calls| ==> calls[i].now <= calls[j].now
  }

  /** The times of the accepted calls of one key, all of them. */
  function Accepted(limit: int, window: int, calls: seq<Call>, key: string): seq<int>
    decreases |calls|, 0
  {
    if calls == [] then []
    else
      var c := calls[|calls| - 1];
      var before := calls[..|calls| - 1];
      Accepted(limit, window, before, key)
      + if c.key == key && SpecAllows(limit, window, before, c) then [c.now] else []
  }

  /** Fewer than `limit` accepted calls of this key in (now - window, now]. */
  predicate SpecAllows(limit: int, window: int, before: seq<Call>, c: Call)
    decreases |before|, 1
  {
    |Kept(Accepted(limit, window, before, c.key), c.now - window)| < limit
  }

  function StateAfter(start: int, limit: int, window: int, calls: seq<Call>): Limiter {
    if calls == [] then Limiter(map[], start)
    else
      var c := calls[|calls| - 1];
      Step(StateAfter(start, limit, window, calls[..|calls| - 1]), limit, window, c.key, c.now).0
  }

  predicate Decides(start: int, limit: int, window: int, before: seq<Call>, c: Call) {
    Step(StateAfter(start, limit, window, before), limit, window, c.key, c.now).1
  }

  predicate Sorted(times: seq<int>) { forall i, j :: 0 <= i < j < |times| ==> times[i] <= times[j] }

  lemma {:induction false} KeptConcat(xs: seq<int>, ys: seq<int>, cutoff: int)
    ensures Kept(xs + ys, cutoff) == Kept(xs, cutoff) + Kept(ys, cutoff)
  {
    if ys == [] {
      assert xs + ys == xs;
    } else {
      KeptConcat(xs, ys[..|ys| - 1], cutoff);
      assert (xs + ys)[..|xs + ys| - 1] == xs + ys[..|ys| - 1];
    }
  }

  lemma {:induction false} KeptNone(xs: seq<int>, cutoff: int)
    requires forall t :: t in xs ==> t <= cutoff
    ensures Kept(xs, cutoff) == []
  {
    if xs != [] {
      var init, last := xs[..|xs| - 1], xs[|xs| - 1];
      assert xs == init + [last];
      assert forall t :: t in init ==> t in xs;
      assert last in xs;
      KeptNone(init, cutoff);
    }
  }

  /** Filtering a sorted list drops a prefix. */
  lemma {:induction false} KeptSuffix(times: seq<int>, cutoff: int) returns (dropped: seq<int>)
    requires Sorted(times)
    ensures times == dropped + Kept(times, cutoff)
    ensures forall t :: t in dropped ==> t <= cutoff
  {
    if times == [] {
      dropped := [];
    } else {
      var n := |times| - 1;
      if times[n] > cutoff {
        dropped := KeptSuffix(times[..n], cutoff);
        assert times == times[..n] + [times[n]];
      } else {
        dropped := times;
        KeptNone(times, cutoff);
      }
    }
  }

  /** What the state remembers of a key is a suffix of what happened, and the rest is too old to matter. */
  ghost predicate Remembers(all: seq<int>, times: seq<int>, horizon: int) {
    exists dropped :: all == dropped + times && forall t :: t in dropped ==> t <= horizon
  }

  lemma RemembersKept(all: seq<int>, times: seq<int>, horizon: int, cutoff: int)
    requires Remembers(all, times, horizon) && horizon <= cutoff
    ensures Kept(all, cutoff) == Kept(times, cutoff)
  {
    var dropped :| all == dropped + times && forall t :: t in dropped ==> t <= horizon;
    KeptConcat(dropped, times, cutoff);
    KeptNone(dropped, cutoff);
  }

  lemma RemembersSuffix(all: seq<int>, times: seq<int>, horizon: int, cutoff: int)
    requires Remembers(all, times, horizon) && horizon <= cutoff && Sorted(all)
    ensures Remembers(all, Kept(times, cutoff), cutoff)
  {
    var dropped :| all == dropped + times && forall t :: t in dropped ==> t <= horizon;
    assert Sorted(times) by {
      forall i, j | 0 <= i < j < |times| ensures times[i] <= times[j] {
        assert times[i] == all[|dropped| + i] && times[j] == all[|dropped| + j];
      }
    }
    var more := KeptSuffix(times, cutoff);
    assert all == (dropped + more) + Kept(times, cutoff);
  }

  lemma RemembersAppend(all: seq<int>, times: seq<int>, horizon: int, now: int)
    requires Remembers(all, times, horizon)
    ensures Remembers(all + [now], times + [now], horizon)
  {
    var dropped :| all == dropped + times && forall t :: t in dropped ==> t <= horizon;
    assert all + [now] == dropped + (times + [now]);
  }

  lemma {:induction false} AcceptedInOrder(limit: int, window: int, calls: seq<Call>, key: string)
    requires Monotone(calls)
    ensures Sorted(Accepted(limit, window, calls, key))
    ensures forall t :: t in Accepted(limit, window, calls, key) ==> calls != [] && t <= calls[|calls| - 1].now
  {
    if calls != [] {
      var before, c := calls[..|calls| - 1], calls[|calls| - 1];
      AcceptedInOrder(limit, window, before, key);
      SortedSnoc(Accepted(limit, window, before, key), c.now);
    }
  }

  lemma SortedSnoc(times: seq<int>, now: int)
    requires Sorted(times) && forall t :: t in times ==> t <= now
    ensures Sorted(times + [now])
  {
    forall i | 0 <= i < |times| ensures times[i] <= now { assert times[i] in times; }
  }

  ghost predicate Linked(start: int, limit: int, window: int, calls: seq<Call>, horizon: int) {
    forall key :: Remembers(Accepted(limit, window, calls, key),
                            TimesOf(StateAfter(start, limit, window, calls).hits, key), horizon)
  }

  lemma CollectedRemembers(l: Limiter, window: int, now: int, all: seq<int>, key: string, horizon: int)
    requires Remembers(all, TimesOf(l.hits, key), horizon) && horizon <= now - window && Sorted(all)
    ensures Remembers(all, TimesOf(Collected(l, window, now).hits, key), now - window)
  {
    var times := TimesOf(l.hits, key);
    var dropped :| all == dropped + times && forall t :: t in dropped ==> t <= horizon;
    if TimesOf(Collected(l, window, now).hits, key) != times {
      assert times != [] && times[|times| - 1] < now - window;
      forall t | t in all ensures t <= now - window {
        var i :| 0 <= i < |all| && all[i] == t;
        assert all[|all| - 1] == times[|times| - 1];
      }
      assert all == all + [];
    }
  }

  /** One call seen from one key, with `all` what that key's calls had accepted so far. */
  lemma StepOneKey(l: Limiter, limit: int, window: int, c: Call, key: string, all: seq<int>, horizon: int)
    requires Remembers(all, TimesOf(l.hits, key), horizon) && horizon <= c.now - window && Sorted(all)
    ensures key == c.key ==> (Step(l, limit, window, c.key, c.now).1 <==> |Kept(all, c.now - window)| < limit)
    ensures Remembers(all + if key == c.key && |Kept(all, c.now - window)| < limit then [c.now] else [],
                      TimesOf(Step(l, limit, window, c.key, c.now).0.hits, key), c.now - window)
  {
    var cutoff := c.now - window;
    CollectedRemembers(l, window, c.now, all, key, horizon);
    StepTimes(l, limit, window, c, key);
    assert all + [] == all;
    if key == c.key {
      var times := TimesOf(Collected(l, window, c.now).hits, key);
      KeptStep(all, times, cutoff, c.now);
    }
  }

  lemma KeptStep(all: seq<int>, times: seq<int>, cutoff: int, now: int)
    requires Remembers(all, times, cutoff) && Sorted(all)
    ensures Kept(all, cutoff) == Kept(times, cutoff)
    ensures Remembers(all, Kept(times, cutoff), cutoff)
    ensures Remembers(all + [now], Kept(times, cutoff) + [now], cutoff)
  {
    RemembersKept(all, times, cutoff, cutoff);
    RemembersSuffix(all, times, cutoff, cutoff);
    RemembersAppend(all, Kept(times, cutoff), cutoff, now);
  }

  lemma AcceptedNext(limit: int, window: int, before: seq<Call>, c: Call, key: string)
    ensures Accepted(limit, window, before + [c], key) == Accepted(limit, window, before, key)
            + if key == c.key && SpecAllows(limit, window, before, c) then [c.now] else []
  {
    assert (before + [c])[..|before|] == before;
  }

  /** One call: the decision is the specification's, and the link is kept. */
  lemma StepLinked(start: int, limit: int, window: int, before: seq<Call>, c: Call, horizon: int)
    requires Linked(start, limit, window, before, horizon) && horizon <= c.now - window
    requires Monotone(before)
    ensures Decides(start, limit, window, before, c) == SpecAllows(limit, window, before, c)
    ensures Linked(start, limit, window, before + [c], c.now - window)
  {
    var l := StateAfter(start, limit, window, before);
    assert (before + [c])[..|before|] == before;
    assert StateAfter(start, limit, window, before + [c]) == Step(l, limit, window, c.key, c.now).0;
    AcceptedInOrder(limit, window, before, c.key);
    StepOneKey(l, limit, window, c, c.key, Accepted(limit, window, before, c.key), horizon);
    forall key
      ensures Remembers(Accepted(limit, window, before + [c], key),
                        TimesOf(StateAfter(start, limit, window, before + [c]).hits, key), c.now - window)
    {
      AcceptedInOrder(limit, window, before, key);
      StepOneKey(l, limit, window, c, key, Accepted(limit, window, before, key), horizon);
      AcceptedNext(limit, window, before, c, key);
    }
  }

  lemma StepTimes(l: Limiter, limit: int, window: int, c: Call, key: string)
    ensures var kept := Kept(TimesOf(Collected(l, window, c.now).hits, c.key), c.now - window);
            TimesOf(Step(l, limit, window, c.key, c.now).0.hits, key) ==
            if key != c.key then TimesOf(Collected(l, window, c.now).hits, key)
            else if |kept| < limit then kept + [c.now] else kept
  {
  }

  lemma {:induction false} AlwaysLinked(start: int, limit: int, window: int, calls: seq<Call>) returns (horizon: int)
    requires Monotone(calls)
    ensures Linked(start, limit, window, calls, horizon)
    ensures calls != [] ==> horizon == calls[|calls| - 1].now - window
    ensures calls == [] ==> forall h :: Linked(start, limit, window, calls, h)
  {
    if calls == [] {
      forall h, key ensures Remembers(Accepted(limit, window, [], key),
                                      TimesOf(StateAfter(start, limit, window, []).hits, key), h) {
        var none: seq<int> := [];
        assert none == none + none;
      }
      horizon := 0;
    } else {
      var before, c := calls[..|calls| - 1], calls[|calls| - 1];
      var h := AlwaysLinked(start, limit, window, before);
      horizon := c.now - window;
      if before == [] { h := horizon; }
      StepLinked(start, limit, window, before, c, h);
      assert calls == before + [c];
    }
  }

  /** With a clock that does not go back, every decision is that of the specification:
      filtering, collection and other keys cannot be observed. */
  lemma DecisionsRefine(start: int, limit: int, window: int, before: seq<Call>, c: Call)
    requires Monotone(before + [c])
    ensures Decides(start, limit, window, before, c) <==> SpecAllows(limit, window, before, c)
  {
    var all := before + [c];
    assert forall i :: 0 <= i < |before| ==> all[i] == before[i] && before[i].now <= all[|before|].now;
    var h := AlwaysLinked(start, limit, window, before);
    if before == [] { h := c.now - window; }
    StepLinked(start, limit, window, before, c, h);
  }

  // ---- What clients can rely on -----------------------------------------------------

  function Within(times: seq<int>, lo: int, hi: int): seq<int> {
    if times == [] then []
    else
      var t := times[|times| - 1];
      Within(times[..|times| - 1], lo, hi) + if lo < t <= hi then [t] else []
  }

  lemma {:induction false} WithinKept(times: seq<int>, lo: int, hi: int, cutoff: int)
    requires cutoff <= lo
    ensures |Within(times, lo, hi)| <= |Kept(times, cutoff)|
  {
    if times != [] { WithinKept(times[..|times| - 1], lo, hi, cutoff); }
  }

  /** Any half-open window of the configured length, wherever it ends, holds at most `limit`
      accepted calls of a key. */
  lemma {:induction false} WindowBound(limit: int, window: int, calls: seq<Call>, key: string, end: int)
    requires Monotone(calls) && limit >= 0
    ensures |Within(Accepted(limit, window, calls, key), end - window, end)| <= limit
  {
    if calls != [] {
      var before, c := calls[..|calls| - 1], calls[|calls| - 1];
      WindowBound(limit, window, before, key, end);
      var all := Accepted(limit, window, before, key);
      if c.key == key && SpecAllows(limit, window, before, c) {
        assert (all + [c.now])[..|all|] == all;
        if c.now <= end { WithinKept(all, end - window, end, c.now - window); }
      } else {
        assert all + [] == all;
      }
    }
  }

  function Only(calls: seq<Call>, key: string): seq<Call> {
    if calls == [] then []
    else
      var c := calls[|calls| - 1];
      Only(calls[..|calls| - 1], key) + if c.key == key then [c] else []
  }

  /** Calls of other keys have no influence. */
  lemma {:induction false} KeysAreIndependent(limit: int, window: int, calls: seq<Call>, key: string)
    ensures Accepted(limit, window, calls, key) == Accepted(limit, window, Only(calls, key), key)
  {
    if calls != [] {
      var before, c := calls[..|calls| - 1], calls[|calls| - 1];
      KeysAreIndependent(limit, window, before, key);
      var only := Only(before, key);
      if c.key == key {
        assert (only + [c])[..|only|] == only;
      } else {
        assert only + [] == only;
        assert Accepted(limit, window, before, key) + [] == Accepted(limit, window, before, key);
      }
    }
  }
}
