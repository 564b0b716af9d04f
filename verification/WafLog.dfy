/** The WAF log: keyset pages read backwards with an in-place reversal, and the live cursor. */
module WafLog {
  datatype Block = Block(id: int, uri: string)

  ghost predicate Increasing(log: seq<Block>) {
    && (forall i, j :: 0 <= i < j < |log| ==> log[i].id < log[j].id)
    && (forall i :: 0 <= i < |log| ==> log[i].id > 0)
  }

  // ---- The queries ------------------------------------------------------------------

  /** WHERE id < before, in id order. */
  function Below(log: seq<Block>, before: int): seq<Block> {
    if log == [] then []
    else
      var b := log[|log| - 1];
      Below(log[..|log| - 1], before) + if b.id < before then [b] else []
  }

  /** WHERE id > after, in id order. */
  function Above(log: seq<Block>, after: int): seq<Block> {
    if log == [] then []
    else
      var b := log[|log| - 1];
      Above(log[..|log| - 1], after) + if b.id > after then [b] else []
  }

  function Reversed<T>(s: seq<T>): (r: seq<T>)
    ensures |r| == |s| && forall i {:trigger r[i]} :: 0 <= i < |s| ==> r[i] == s[|s| - 1 - i]
  {
    if s == [] then [] else [s[|s| - 1]] + Reversed(s[..|s| - 1])
  }

  function Take<T>(s: seq<T>, n: nat): seq<T> { if |s| <= n then s else s[..n] }

  function LastOf<T>(s: seq<T>, n: nat): seq<T> { if |s| <= n then s else s[|s| - n..] }

  /** ORDER BY id DESC LIMIT n over rows in id order. */
  function Descending(s: seq<Block>, n: nat): seq<Block> { Take(Reversed(s), n) }

  function PageSize(limit: int, otherwise: nat): nat { if limit <= 0 || limit > 500 then otherwise else limit }

  /** Sizes from 1 to 500 are honoured, anything else gets the default. */
  lemma PageSizes(limit: int, otherwise: nat)
    ensures 1 <= limit <= 500 ==> PageSize(limit, otherwise) == limit
    ensures limit < 1 || limit > 500 ==> PageSize(limit, otherwise) == otherwise
  {
  }

  function MaxId(log: seq<Block>): int { if log == [] then 0 else log[|log| - 1].id }

  // ---- The code ---------------------------------------------------------------------

  /** The slice after i rounds of the swap loop. */
  function Swapped<T>(s: seq<T>, i: nat): (r: seq<T>)
    requires 2 * i <= |s| + 1
    ensures |r| == |s|
    ensures forall k {:trigger r[k]} ::
              0 <= k < |s| ==> r[k] == if i <= k < |s| - i then s[k] else s[|s| - 1 - k]
  {
    seq(|s|, k requires 0 <= k < |s| => if i <= k < |s| - i then s[k] else s[|s| - 1 - k])
  }

  lemma {:induction false} SwapNext<T>(s: seq<T>, i: nat)
    requires 2 * i + 1 < |s|
    ensures var r, j := Swapped(s, i), |s| - 1 - i;
            Swapped(s, i + 1) == r[i := r[j]][j := r[i]]
  {
  }

  lemma {:induction false} SwappedAll<T>(s: seq<T>, i: nat)
    requires |s| <= 2 * i + 1 <= |s| + 2
    ensures Swapped(s, i) == Reversed(s)
  {
    var r, q := Swapped(s, i), Reversed(s);
    forall k | 0 <= k < |s| ensures r[k] == q[k] {
      if i <= k < |s| - i { assert |s| - 1 - k == k; }
    }
    assert r == q;
  }

  /** The swap loop over the result slice. */
  method ReverseInPlace(out: array<Block>)
    modifies out
    ensures out[..] == Reversed(old(out[..]))
  {
    ghost var was := out[..];
    var i, j := 0, out.Length - 1;
    assert was == Swapped(was, 0);
    while i < j
      invariant 0 <= i && j == out.Length - 1 - i && i <= j + 1
      invariant out[..] == Swapped(was, i)
      decreases j - i
    {
      SwapNext(was, i);
      out[i], out[j] := out[j], out[i];
      i, j := i + 1, j - 1;
    }
    SwappedAll(was, i);
  }

  lemma ReverseDescending(s: seq<Block>, n: nat)
    ensures Reversed(Descending(s, n)) == LastOf(s, n)
  {
  }

  /** Scans the rows of a descending query into a slice and reverses it. */
  method Collect(rows: seq<Block>) returns (out: seq<Block>)
    ensures out == Reversed(rows)
  {
    var slice := new Block[|rows|](i requires 0 <= i < |rows| => rows[i]);
    assert slice[..] == rows;
    ReverseInPlace(slice);
    out := slice[..];
  }

  method ListBefore(log: seq<Block>, before: int, limit: int) returns (out: seq<Block>)
    ensures out == LastOf(Below(log, before), PageSize(limit, 50))
  {
    var n := PageSize(limit, 50);
    out := Collect(Descending(Below(log, before), n));
    ReverseDescending(Below(log, before), n);
  }

  method ListLatest(log: seq<Block>, limit: int) returns (out: seq<Block>)
    ensures out == LastOf(log, PageSize(limit, 50))
  {
    var n := PageSize(limit, 50);
    out := Collect(Descending(log, n));
    ReverseDescending(log, n);
  }

  method ListAfter(log: seq<Block>, after: int, limit: int) returns (out: seq<Block>)
    ensures out == Take(Above(log, after), PageSize(limit, 100))
  {
    var n := PageSize(limit, 100);
    var rows := Take(Above(log, after), n);
    out := [];
    for i := 0 to |rows|
      invariant out == rows[..i]
    {
      out := out + [rows[i]];
    }
  }

  // ---- Paging backwards -------------------------------------------------------------

  lemma {:induction false} BelowIsPrefix(log: seq<Block>, k: nat)
    requires Increasing(log) && k < |log|
    ensures Below(log, log[k].id) == log[..k]
  {
    var n := |log| - 1;
    var init := log[..n];
    assert log[n].id < log[k].id ==> false;
    assert Below(log, log[k].id) == Below(init, log[k].id) + [];
    if k < n {
      BelowIsPrefix(init, k);
      assert init[k] == log[k] && init[..k] == log[..k];
    } else {
      BelowAll(init, log[n].id);
    }
  }

  lemma {:induction false} BelowAll(log: seq<Block>, before: int)
    requires forall i :: 0 <= i < |log| ==> log[i].id < before
    ensures Below(log, before) == log
  {
    if log != [] { BelowAll(log[..|log| - 1], before); }
  }

  function Flatten(pages: seq<seq<Block>>): seq<Block> {
    if pages == [] then [] else pages[0] + Flatten(pages[1..])
  }

  /** The pages are consecutive, at most n long, full except the oldest, and end the log. */
  ghost predicate Covers(pages: seq<seq<Block>>, log: seq<Block>, end: nat, n: nat) {
    && end <= |log| && Flatten(pages) == log[end..]
    && (forall i :: 0 <= i < |pages| ==> 0 < |pages[i]| <= n)
    && (forall i :: 0 < i < |pages| ==> |pages[i]| == n)
    && (end > 0 && pages != [] ==> |pages[0]| == n)
  }

  lemma OnePageMore(pages: seq<seq<Block>>, log: seq<Block>, end: nat, n: nat, page: seq<Block>)
    requires Covers(pages, log, end, n) && page == LastOf(log[..end], n) && page != []
    ensures |page| <= end && page[0] == log[end - |page|] && Covers([page] + pages, log, end - |page|, n)
  {
    var first := end - |page|;
    assert page == log[first..end];
    assert log[first..end] + log[end..] == log[first..];
    assert ([page] + pages)[1..] == pages;
  }

  /** Each snapshot extends the one before. */
  ghost predicate AppendOnly(snapshots: seq<seq<Block>>) {
    && (forall i :: 0 <= i < |snapshots| ==> Increasing(snapshots[i]))
    && (forall i, j :: 0 <= i <= j < |snapshots| ==> snapshots[i] <= snapshots[j])
  }

  /** The snapshot the k-th request reads; after the last one the log no longer changes. */
  function SnapshotAt(snapshots: seq<seq<Block>>, k: nat): seq<Block>
    requires |snapshots| > 0
  {
    snapshots[if k < |snapshots| then k else |snapshots| - 1]
  }

  /** On any later snapshot the rows below a block of the first one are those before it there. */
  lemma BelowEarlier(snapshots: seq<seq<Block>>, k: nat, end: nat)
    requires |snapshots| > 0 && AppendOnly(snapshots) && end < |snapshots[0]|
    ensures Below(SnapshotAt(snapshots, k), snapshots[0][end].id) == snapshots[0][..end]
  {
    var log := SnapshotAt(snapshots, k);
    assert snapshots[0] <= log;
    BelowIsPrefix(log, end);
    assert log[..end] == snapshots[0][..end];
  }

  /** Loading the latest page and then "before the first id" until a page is empty, while blocks
      keep arriving. The pages, oldest first, are consecutive, at most one page long, full except
      the oldest, and cover the log as it was at the first request once. */
  method Browse(snapshots: seq<seq<Block>>, limit: int) returns (pages: seq<seq<Block>>)
    requires |snapshots| > 0 && AppendOnly(snapshots)
    ensures Flatten(pages) == snapshots[0]
    ensures forall i :: 0 <= i < |pages| ==> 0 < |pages[i]| <= PageSize(limit, 50)
    ensures forall i :: 0 < i < |pages| ==> |pages[i]| == PageSize(limit, 50)
    ensures forall i :: 0 <= i < |pages| ==> |pages[i]| <= if 1 <= limit <= 500 then limit else 50
  {
    ghost var log := snapshots[0];
    ghost var n: nat, end: nat := PageSize(limit, 50), |log|;
    pages := [];
    var page := ListLatest(snapshots[0], limit);
    assert log[..|log|] == log && log[|log|..] == [];
    while page != []
      invariant Covers(pages, log, end, n) && page == LastOf(log[..end], n)
      decreases end
    {
      OnePageMore(pages, log, end, n, page);
      end := end - |page|;
      pages := [page] + pages;
      BelowEarlier(snapshots, |pages|, end);
      page := ListBefore(SnapshotAt(snapshots, |pages|), page[0].id, limit);
    }
    assert end == 0 && log[0..] == log;
  }

  // ---- The live cursor --------------------------------------------------------------

  lemma {:induction false} AboveIsSuffix(log: seq<Block>, k: nat)
    requires Increasing(log) && k <= |log|
    ensures Above(log, MaxId(log[..k])) == log[k..]
  {
    var n := |log| - 1;
    if k == |log| {
      AboveNone(log, MaxId(log[..k]));
    } else {
      AboveIsSuffix(log[..n], k);
      assert log[..n][..k] == log[..k];
      assert log[n].id > MaxId(log[..k]);
      assert log[k..] == log[..n][k..] + [log[n]];
    }
  }

  lemma {:induction false} AboveNone(log: seq<Block>, after: int)
    requires forall i :: 0 <= i < |log| ==> log[i].id <= after
    ensures Above(log, after) == []
  {
    if log != [] { AboveNone(log[..|log| - 1], after); }
  }

  /** One tick of the stream, with `seen` the length of the log up to the cursor. */
  method Poll(log: seq<Block>, lastID: int, ghost seen: nat) returns (blocks: seq<Block>, cursor: int)
    requires Increasing(log) && seen <= |log| && lastID == MaxId(log[..seen])
    ensures |blocks| <= 100 && seen + |blocks| <= |log| && blocks == log[seen..seen + |blocks|]
    ensures cursor == MaxId(log[..seen + |blocks|])
    ensures |blocks| < 100 ==> seen + |blocks| == |log|
  {
    AboveIsSuffix(log, seen);
    blocks := ListAfter(log, lastID, 100);
    cursor := lastID;
    for i := 0 to |blocks|
      invariant cursor == MaxId(log[..seen + i])
    {
      cursor := blocks[i].id;
    }
  }

  lemma Extend(before: seq<Block>, log: seq<Block>, start: nat, seen: nat)
    requires before <= log && start <= seen <= |before|
    ensures log[..seen] == before[..seen] && log[start..seen] == before[start..seen]
  {
  }

  /** handleStreamWAFBlocks: the stream starts after the first snapshot's last block; every later
      snapshot is one poll. What is sent continues the log from there, in order, without gaps
      or repeats, and a poll that is not full has caught up. */
  method Stream(snapshots: seq<seq<Block>>) returns (sent: seq<Block>, full: bool)
    requires |snapshots| > 0 && AppendOnly(snapshots)
    ensures var start, last := |snapshots[0]|, snapshots[|snapshots| - 1];
            && start + |sent| <= |last| && sent == last[start..start + |sent|]
            && (!full ==> start + |sent| == |last|)
  {
    var lastID := MaxId(snapshots[0]);
    sent, full := [], false;
    ghost var start, seen := |snapshots[0]|, |snapshots[0]|;
    assert snapshots[0][..start] == snapshots[0];
    for n := 1 to |snapshots|
      invariant start <= seen <= |snapshots[n - 1]| && sent == snapshots[n - 1][start..seen]
      invariant lastID == MaxId(snapshots[n - 1][..seen])
      invariant !full ==> seen == |snapshots[n - 1]|
    {
      Extend(snapshots[n - 1], snapshots[n], start, seen);
      var blocks;
      blocks, lastID := Poll(snapshots[n], lastID, seen);
      full := |blocks| == 100;
      assert sent + blocks == snapshots[n][start..seen + |blocks|];
      sent := sent + blocks;
      seen := seen + |blocks|;
    }
  }
}
