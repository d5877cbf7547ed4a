/** Summing counter rows in the order in which a query returns them: whatever the
    order, the sums are those of the specification. */
module UsageLoading {
  import opened Basics
  import opened Tables
  import opened Quota
  import opened Transactions
  import opened RunRates

  /** The window rows that a request with these digests loads. */
  function WindowRows(ws: Windows, session: Digest, networks: seq<Digest>): set<WindowKey> {
    set k | k in ws && k.digest in DigestsOf(k.dimension, session, networks)
  }

  /** The usage of one dimension, counting only the rows seen so far. */
  function SeenUsage(ws: Windows, d: WindowDimension, digests: seq<Digest>, now: int,
                     seen: set<WindowKey>): Option<Usage> {
    if digests == [] then None
    else
      var rest := SeenUsage(ws, d, digests[..|digests| - 1], now, seen);
      var k := WindowKey(d, digests[|digests| - 1]);
      if k in seen && LiveWindow(ws, k, now) then Some(AddUsage(rest, ws[k])) else rest
  }

  lemma {:induction false} NothingSeen(ws: Windows, d: WindowDimension, digests: seq<Digest>, now: int)
    ensures SeenUsage(ws, d, digests, now, {}) == None
  {
    if digests != [] {
      NothingSeen(ws, d, digests[..|digests| - 1], now);
    }
  }

  lemma {:induction false} SameSeen(ws: Windows, d: WindowDimension, digests: seq<Digest>, now: int,
                                    seen: set<WindowKey>, seen': set<WindowKey>)
    requires forall x | x in digests && LiveWindow(ws, WindowKey(d, x), now) ::
               WindowKey(d, x) in seen <==> WindowKey(d, x) in seen'
    ensures SeenUsage(ws, d, digests, now, seen) == SeenUsage(ws, d, digests, now, seen')
  {
    if digests != [] {
      SameSeen(ws, d, digests[..|digests| - 1], now, seen, seen');
    }
  }

  /** One more live row adds its count and raises the reset to at least its own. */
  lemma {:induction false} OneMoreSeen(ws: Windows, digests: seq<Digest>, now: int, seen: set<WindowKey>, k: WindowKey)
    requires DistinctDigests(digests) && k.digest in digests && k !in seen && LiveWindow(ws, k, now)
    ensures SeenUsage(ws, k.dimension, digests, now, seen + {k})
            == Some(AddUsage(SeenUsage(ws, k.dimension, digests, now, seen), ws[k]))
  {
    var d := k.dimension;
    var init := digests[..|digests| - 1];
    var last := WindowKey(d, digests[|digests| - 1]);
    if last == k {
      assert k.digest !in init;
      SameSeen(ws, d, init, now, seen, seen + {k});
    } else {
      OneMoreSeen(ws, init, now, seen, k);
    }
  }

  lemma {:induction false} AllSeen(ws: Windows, d: WindowDimension, digests: seq<Digest>, now: int,
                                   seen: set<WindowKey>)
    requires forall x | x in digests && WindowKey(d, x) in ws :: WindowKey(d, x) in seen
    ensures SeenUsage(ws, d, digests, now, seen) == WindowUsage(ws, d, digests, now)
  {
    if digests != [] {
      AllSeen(ws, d, digests[..|digests| - 1], now, seen);
    }
  }

  // ---- active counters ----------------------------------------------------

  function ActiveRows(active: Active, session: Digest, networks: seq<Digest>): set<ActiveKey> {
    set k | k in active && (if k.SessionActive? then k.digest == session else k.digest in networks)
  }

  function SeenActive(active: Active, digests: seq<Digest>, seen: set<ActiveKey>): int {
    if digests == [] then 0
    else
      var k := NetworkActive(digests[|digests| - 1]);
      SeenActive(active, digests[..|digests| - 1], seen) + (if k in seen then ActiveOf(active, k) else 0)
  }

  lemma {:induction false} NoActiveSeen(active: Active, digests: seq<Digest>)
    ensures SeenActive(active, digests, {}) == 0
  {
    if digests != [] {
      NoActiveSeen(active, digests[..|digests| - 1]);
    }
  }

  lemma {:induction false} SameActiveSeen(active: Active, digests: seq<Digest>, seen: set<ActiveKey>, k: ActiveKey)
    requires k.NetworkActive? ==> k.digest !in digests
    ensures SeenActive(active, digests, seen + {k}) == SeenActive(active, digests, seen)
  {
    if digests != [] {
      SameActiveSeen(active, digests[..|digests| - 1], seen, k);
    }
  }

  lemma {:induction false} OneMoreActive(active: Active, digests: seq<Digest>, seen: set<ActiveKey>, k: ActiveKey)
    requires DistinctDigests(digests) && k.NetworkActive? && k.digest in digests && k !in seen
    ensures SeenActive(active, digests, seen + {k}) == SeenActive(active, digests, seen) + ActiveOf(active, k)
  {
    var init := digests[..|digests| - 1];
    if NetworkActive(digests[|digests| - 1]) == k {
      assert k.digest !in init;
      SameActiveSeen(active, init, seen, k);
    } else {
      OneMoreActive(active, init, seen, k);
    }
  }

  lemma {:induction false} AllActiveSeen(active: Active, digests: seq<Digest>, seen: set<ActiveKey>)
    requires forall x | x in digests && NetworkActive(x) in active :: NetworkActive(x) in seen
    ensures SeenActive(active, digests, seen) == NetworkUsage(active, digests)
  {
    if digests != [] {
      AllActiveSeen(active, digests[..|digests| - 1], seen);
    }
  }
}
