/** The in-memory sliding-window rate limiter: per key, the timestamps of the
    recent checks. A check first drops the timestamps at or before
    `now - windowMs`, then records `now`, then admits when at most
    `maxRequests` timestamps remain, so a denied check is recorded too. */
module RateLimit {
  import opened Wrappers

  /** `ts.filter((t) => t > cutoff)`. */
  function KeepAfter(ts: seq<int>, cutoff: int): (r: seq<int>)
    ensures |r| <= |ts|
    ensures forall i :: 0 <= i < |r| ==> r[i] > cutoff
    ensures forall t :: t in r <==> t in ts && t > cutoff
  {
    if ts == [] then []
    else
      var init := KeepAfter(ts[..|ts| - 1], cutoff);
      var last := ts[|ts| - 1];
      assert ts == ts[..|ts| - 1] + [last];
      if last > cutoff then init + [last] else init
  }

  /** What one check stores for its key: the kept timestamps, in their order,
      followed by `now`. */
  function Record(stored: seq<int>, now: int, windowMs: int): (recent: seq<int>)
    ensures |recent| > 0 && recent[|recent| - 1] == now
    ensures forall i :: 0 <= i < |recent| - 1 ==> recent[i] > now - windowMs
    ensures |recent| <= |stored| + 1
  {
    KeepAfter(stored, now - windowMs) + [now]
  }

  class InMemoryRateLimiter {
    const maxRequests: int
    const windowMs: int
    var store: map<string, seq<int>>

    constructor (maxRequests: int, windowMs: int)
      ensures this.maxRequests == maxRequests && this.windowMs == windowMs
      ensures store == map[]
    {
      this.maxRequests := maxRequests;
      this.windowMs := windowMs;
      store := map[];
    }

    /** `store.get(key) ?? []`. */
    function Stored(key: string): seq<int>
      reads this
    {
      if key in store then store[key] else []
    }

    /** Prunes `key`'s timestamps to the window ending at `now`, appends `now`
        whatever the verdict, and admits when at most `maxRequests` remain.
        Other keys keep their timestamps. */
    method Check(key: string, now: int) returns (allowed: bool)
      modifies this
      ensures store == old(store)[key := Record(old(Stored(key)), now, windowMs)]
      ensures allowed <==> |store[key]| <= maxRequests
    {
      var cutoff := now - windowMs;
      var recent := KeepAfter(Stored(key), cutoff);
      recent := recent + [now];
      store := store[key := recent];
      allowed := |recent| <= maxRequests;
    }

    /** The number of `key`'s timestamps after `now - windowMs`: the positions
        of its stored list whose timestamp is still in the window. */
    function GetCount(key: string, now: int): (count: nat)
      reads this
      ensures count <= |Stored(key)|
      ensures count == |PositionsAfter(Stored(key), now - windowMs)|
    {
      KeepAfterCount(Stored(key), now - windowMs);
      |KeepAfter(Stored(key), now - windowMs)|
    }

    /** Forgets one key, or every key when none is given; the empty string is
        falsy in the source and so clears every key too. */
    method Reset(key: Option<string>)
      modifies this
      ensures key.Some? && key.value != "" ==> store == old(store) - {key.value}
      ensures key.None? || key.value == "" ==> store == map[]
    {
      if key.Some? && key.value != "" {
        store := store - {key.value};
      } else {
        store := map[];
      }
    }

    /** Checks `key` at each of `times` in turn, starting from no stored
        timestamps: the store then holds the fold `Replay` of the run, and each
        verdict is the one the trace theorems below speak of. */
    method CheckRun(key: string, times: seq<int>) returns (verdicts: seq<bool>)
      requires Stored(key) == []
      modifies this
      ensures Stored(key) == Replay(times, windowMs)
      ensures |verdicts| == |times|
      ensures forall j :: 0 <= j < |times| ==> (verdicts[j] <==> AdmittedAt(times, windowMs, maxRequests, j))
    {
      verdicts := [];
      var i := 0;
      while i < |times|
        invariant 0 <= i <= |times| && |verdicts| == i
        invariant Stored(key) == Replay(times[..i], windowMs)
        invariant forall j :: 0 <= j < i ==> (verdicts[j] <==> AdmittedAt(times, windowMs, maxRequests, j))
      {
        ReplayPrefixStep(times, windowMs, i);
        var allowed := Check(key, times[i]);
        assert allowed <==> AdmittedAt(times, windowMs, maxRequests, i);
        verdicts := verdicts + [allowed];
        i := i + 1;
      }
      assert times[..i] == times;
    }
  }

  // ---------------------------------------------------------------------------
  // Properties of the window
  // ---------------------------------------------------------------------------

  /** Filtering keeps order: filtering a concatenation filters each part. */
  lemma {:induction false} KeepAfterConcat(a: seq<int>, b: seq<int>, cutoff: int)
    ensures KeepAfter(a + b, cutoff) == KeepAfter(a, cutoff) + KeepAfter(b, cutoff)
  {
    if b == [] {
      assert a + b == a;
    } else {
      assert (a + b)[..|a + b| - 1] == a + b[..|b| - 1];
      KeepAfterConcat(a, b[..|b| - 1], cutoff);
    }
  }

  /** Filtering twice keeps what the later cutoff keeps. */
  lemma {:induction false} KeepAfterTwice(ts: seq<int>, c1: int, c2: int)
    requires c1 <= c2
    ensures KeepAfter(KeepAfter(ts, c1), c2) == KeepAfter(ts, c2)
  {
    if ts != [] {
      var init := ts[..|ts| - 1];
      var last := ts[|ts| - 1];
      KeepAfterTwice(init, c1, c2);
      if last > c1 {
        KeepAfterConcat(KeepAfter(init, c1), [last], c2);
      }
    }
  }

  /** A window that holds every timestamp keeps them all, in order. */
  lemma {:induction false} KeepAfterAll(ts: seq<int>, cutoff: int)
    requires forall i :: 0 <= i < |ts| ==> ts[i] > cutoff
    ensures KeepAfter(ts, cutoff) == ts
  {
    if ts != [] {
      KeepAfterAll(ts[..|ts| - 1], cutoff);
    }
  }

  /** A window that holds none of the timestamps keeps nothing. */
  lemma KeepAfterNone(ts: seq<int>, cutoff: int)
    requires forall i :: 0 <= i < |ts| ==> ts[i] <= cutoff
    ensures KeepAfter(ts, cutoff) == []
  {
  }

  /** Checking and then counting at the same instant sees every stored
      timestamp, so the verdict is "count at most maxRequests". */
  lemma RecordThenCount(stored: seq<int>, now: int, windowMs: int)
    requires windowMs > 0
    ensures KeepAfter(Record(stored, now, windowMs), now - windowMs) == Record(stored, now, windowMs)
  {
    var cutoff := now - windowMs;
    var kept := KeepAfter(stored, cutoff);
    KeepAfterConcat(kept, [now], cutoff);
    KeepAfterTwice(stored, cutoff, cutoff);
    KeepAfterAll([now], cutoff);
  }

  /** The positions of `ts` whose timestamp is after `cutoff`. */
  function PositionsAfter(ts: seq<int>, cutoff: int): set<nat> {
    set i: nat | i < |ts| && ts[i] > cutoff
  }

  /** The positions of a prefix are those of the whole below its length. */
  lemma PositionsAfterPrefix(ts: seq<int>, n: nat, cutoff: int)
    requires n < |ts|
    ensures PositionsAfter(ts[..n + 1], cutoff)
         == PositionsAfter(ts[..n], cutoff) + (if ts[n] > cutoff then {n} else {})
  {
  }

  /** The number of kept timestamps is the number of positions whose
      timestamp is after the cutoff. */
  lemma {:induction false} KeepAfterCount(ts: seq<int>, cutoff: int)
    ensures |KeepAfter(ts, cutoff)| == |PositionsAfter(ts, cutoff)|
  {
    if ts != [] {
      var n := |ts| - 1;
      KeepAfterCount(ts[..n], cutoff);
      PositionsAfterPrefix(ts, n, cutoff);
      assert ts[..n + 1] == ts;
    }
  }

  // ---------------------------------------------------------------------------
  // A sequence of checks on one key
  // ---------------------------------------------------------------------------

  /** No check's clock reading is earlier than that of a check before it. */
  predicate NonDecreasing(times: seq<int>) {
    forall i, j :: 0 <= i <= j < |times| ==> times[i] <= times[j]
  }

  /** The timestamps stored for a key after checks at `times`, from none. */
  function Replay(times: seq<int>, windowMs: int): (stored: seq<int>)
    ensures |stored| <= |times|
  {
    if times == [] then []
    else Record(Replay(times[..|times| - 1], windowMs), times[|times| - 1], windowMs)
  }

  /** Whether the `j`-th check of the sequence was admitted. */
  predicate AdmittedAt(times: seq<int>, windowMs: int, maxRequests: int, j: nat)
    requires j < |times|
  {
    |Replay(times[..j + 1], windowMs)| <= maxRequests
  }

  lemma NonDecreasingPrefix(times: seq<int>, n: nat)
    requires NonDecreasing(times) && 0 < n < |times|
    ensures NonDecreasing(times[..n]) && times[n - 1] <= times[n]
  {
  }

  /** Replaying a run is recording its last check on the replay of the rest. */
  lemma ReplaySnoc(times: seq<int>, windowMs: int)
    requires |times| > 0
    ensures Replay(times, windowMs)
      == Record(Replay(times[..|times| - 1], windowMs), times[|times| - 1], windowMs)
  {
  }

  /** The replay of a run's first i + 1 checks extends that of its first i. */
  lemma ReplayPrefixStep(times: seq<int>, windowMs: int, i: nat)
    requires i < |times|
    ensures Replay(times[..i + 1], windowMs) == Record(Replay(times[..i], windowMs), times[i], windowMs)
  {
    assert times[..i + 1][..i] == times[..i];
    ReplaySnoc(times[..i + 1], windowMs);
  }

  /** A last timestamp after the cutoff is kept, at the end. */
  lemma KeepAfterSnocAbove(ts: seq<int>, cutoff: int)
    requires |ts| > 0 && ts[|ts| - 1] > cutoff
    ensures KeepAfter(ts, cutoff) == KeepAfter(ts[..|ts| - 1], cutoff) + [ts[|ts| - 1]]
  {
  }

  /** If the store before the last check holds what some earlier cutoff
      keeps, the store after it holds what the last check's cutoff keeps. */
  lemma TrailingWindowStep(times: seq<int>, windowMs: int, earlier: int)
    requires windowMs > 0 && |times| > 0
    requires earlier <= times[|times| - 1] - windowMs
    requires Replay(times[..|times| - 1], windowMs) == KeepAfter(times[..|times| - 1], earlier)
    ensures Replay(times, windowMs) == KeepAfter(times, times[|times| - 1] - windowMs)
  {
    var init := times[..|times| - 1];
    var cutoff := times[|times| - 1] - windowMs;
    calc {
      Replay(times, windowMs);
      { ReplaySnoc(times, windowMs); }
      KeepAfter(Replay(init, windowMs), cutoff) + [times[|times| - 1]];
      KeepAfter(KeepAfter(init, earlier), cutoff) + [times[|times| - 1]];
      { KeepAfterTwice(init, earlier, cutoff); }
      KeepAfter(init, cutoff) + [times[|times| - 1]];
      { KeepAfterSnocAbove(times, cutoff); }
      KeepAfter(times, cutoff);
    }
  }

  /** With a non-decreasing clock and a positive window, the store holds
      exactly the checks, admitted or denied, of the trailing window. */
  lemma {:induction false} ReplayIsTrailingWindow(times: seq<int>, windowMs: int)
    requires windowMs > 0 && NonDecreasing(times) && |times| > 0
    ensures Replay(times, windowMs) == KeepAfter(times, times[|times| - 1] - windowMs)
  {
    var n := |times| - 1;
    if n == 0 {
      TrailingWindowStep(times, windowMs, times[n] - windowMs);
    } else {
      NonDecreasingPrefix(times, n);
      ReplayIsTrailingWindow(times[..n], windowMs);
      TrailingWindowStep(times, windowMs, times[n - 1] - windowMs);
    }
  }

  /** A check is admitted exactly when the checks in the window of length
      `windowMs` ending at it, itself and denied ones included, number at most
      `maxRequests`. */
  lemma AdmittedIffWindowCount(times: seq<int>, windowMs: int, maxRequests: int, j: nat)
    requires windowMs > 0 && NonDecreasing(times) && j < |times|
    ensures AdmittedAt(times, windowMs, maxRequests, j) <==>
      |PositionsAfter(times[..j + 1], times[j] - windowMs)| <= maxRequests
  {
    var prefix := times[..j + 1];
    ReplayIsTrailingWindow(prefix, windowMs);
    KeepAfterCount(prefix, times[j] - windowMs);
  }

  /** The checks admitted within the window of length `windowMs` ending at `s`. */
  function AdmittedWithin(times: seq<int>, windowMs: int, maxRequests: int, s: int): set<nat> {
    set j: nat | j < |times| && s - windowMs < times[j] <= s && AdmittedAt(times, windowMs, maxRequests, j)
  }

  /** The guarantee of a sliding window: no window of length `windowMs`
      contains more than `maxRequests` admitted checks. */
  lemma {:induction false} AtMostMaxPerWindow(times: seq<int>, windowMs: int, maxRequests: int, s: int)
    requires windowMs > 0 && NonDecreasing(times)
    ensures |AdmittedWithin(times, windowMs, maxRequests, s)| <= maxRequests || AdmittedWithin(times, windowMs, maxRequests, s) == {}
  {
    if times != [] {
      var n := |times| - 1;
      var init := times[..n];
      var here := AdmittedWithin(times, windowMs, maxRequests, s);
      var before := AdmittedWithin(init, windowMs, maxRequests, s);
      forall j: nat | j < n
        ensures AdmittedAt(times, windowMs, maxRequests, j) == AdmittedAt(init, windowMs, maxRequests, j)
      {
        assert times[..j + 1] == init[..j + 1];
      }
      if n in here {
        var window := PositionsAfter(times[..n + 1], times[n] - windowMs);
        assert here <= window;
        assert window == here + (window - here);
        AdmittedIffWindowCount(times, windowMs, maxRequests, n);
      } else {
        assert here == before;
        AtMostMaxPerWindow(init, windowMs, maxRequests, s);
      }
    }
  }

  /** A check while every stored timestamp is still in the window keeps them
      all. */
  lemma RecordInWindow(stored: seq<int>, now: int, windowMs: int)
    requires forall i :: 0 <= i < |stored| ==> stored[i] > now - windowMs
    ensures Record(stored, now, windowMs) == stored + [now]
  {
    KeepAfterAll(stored, now - windowMs);
  }

  /** A check after every stored timestamp has left the window keeps only
      itself. */
  lemma RecordAfterQuiet(stored: seq<int>, now: int, windowMs: int)
    requires forall i :: 0 <= i < |stored| ==> stored[i] <= now - windowMs
    ensures Record(stored, now, windowMs) == [now]
  {
    KeepAfterNone(stored, now - windowMs);
  }

  /** The unit test's sequence on any key, started at any instant `t`: two
      requests per second, checks at t, t + 500, t + 900 and t + 2000 ms. The
      third is denied; by t + 2000 every earlier timestamp, the denied one
      included, has left the window. */
  method WindowExample(key: string, t: int) returns (first: bool, second: bool, third: bool, fourth: bool, countAfter: nat)
    ensures first && second && !third && fourth
    ensures countAfter == 1
  {
    var limiter := new InMemoryRateLimiter(2, 1000);
    RecordInWindow([], t, 1000);
    first := limiter.Check(key, t);
    assert limiter.Stored(key) == [t];
    RecordInWindow([t], t + 500, 1000);
    second := limiter.Check(key, t + 500);
    assert limiter.Stored(key) == [t, t + 500];
    RecordInWindow([t, t + 500], t + 900, 1000);
    third := limiter.Check(key, t + 900);
    assert limiter.Stored(key) == [t, t + 500, t + 900];
    RecordAfterQuiet([t, t + 500, t + 900], t + 2000, 1000);
    fourth := limiter.Check(key, t + 2000);
    assert limiter.Stored(key) == [t + 2000];
    countAfter := limiter.GetCount(key, t + 2000);
  }
}
