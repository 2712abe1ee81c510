/**
 * The sliding window behind USB flap detection (pi/portal.py).
 * Times are seconds on a clock that never goes back.
 */
module FlapWindow {

  const FLAP_WINDOW_S: real := 30.0
  const FLAP_COOLDOWN_S: real := 10.0
  const FLAP_THRESHOLD: nat := 6

  /** The times of `ts` that are younger than the window at `now`, in order. */
  function Recent(ts: seq<real>, now: real): seq<real> {
    if ts == [] then []
    else
      var older, last := Recent(ts[..|ts| - 1], now), ts[|ts| - 1];
      if now - last < FLAP_WINDOW_S then older + [last] else older
  }

  ghost predicate Ordered(ts: seq<real>) {
    forall i, j :: 0 <= i <= j < |ts| ==> ts[i] <= ts[j]
  }

  /** Pruning early loses nothing: a later look sees what it would have seen in the full list. */
  lemma {:induction false} PruningIsInvisible(ts: seq<real>, now: real, later: real)
    requires now <= later
    ensures Recent(Recent(ts, now), later) == Recent(ts, later)
  {
    if ts != [] {
      var init, last := ts[..|ts| - 1], ts[|ts| - 1];
      PruningIsInvisible(init, now, later);
      if now - last < FLAP_WINDOW_S {
        RecentAppend(Recent(init, now), last, later);
      }
    }
  }

  lemma RecentAppend(ts: seq<real>, t: real, now: real)
    ensures Recent(ts + [t], now) ==
            if now - t < FLAP_WINDOW_S then Recent(ts, now) + [t] else Recent(ts, now)
  {
    assert (ts + [t])[..|ts|] == ts;
  }

  /** Two lists that look alike from some moment on still do after the same event is added to both. */
  lemma RecentAppendSame(a: seq<real>, b: seq<real>, t: real, now: real)
    requires Recent(a, now) == Recent(b, now)
    ensures Recent(a + [t], now) == Recent(b + [t], now)
  {
    RecentAppend(a, t, now);
    RecentAppend(b, t, now);
  }

  /** If the n-th youngest time is inside the window, at least n times are. */
  lemma {:induction false} WindowCounts(ts: seq<real>, now: real, n: nat)
    requires Ordered(ts) && 0 < n <= |ts|
    requires now - ts[|ts| - n] < FLAP_WINDOW_S
    ensures |Recent(ts, now)| >= n
  {
    assert ts[|ts| - n] <= ts[|ts| - 1];
    if n > 1 {
      WindowCounts(ts[..|ts| - 1], now, n - 1);
    }
  }

  /** A time list that went quiet for a whole window shows nothing. */
  lemma {:induction false} QuietWindowIsEmpty(ts: seq<real>, now: real)
    requires forall i :: 0 <= i < |ts| ==> now - ts[i] >= FLAP_WINDOW_S
    ensures Recent(ts, now) == []
  {
    if ts != [] {
      QuietWindowIsEmpty(ts[..|ts| - 1], now);
    }
  }
}
