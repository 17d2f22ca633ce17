/** The sliding-window rate limiter: pruned windows and an occasional sweep, against the plain
    definition that counts the whole history of allowed hits. */
module RateLimit {
  import opened Common

  const SWEEP_EVERY: nat := 512

  datatype Config = Config(limit: int, windowMs: int)

  datatype Hit = Hit(key: string, at: int)

  datatype Verdict = Allowed(remaining: int) | Denied(resetSeconds: int)

  datatype Limiter = Limiter(windows: map<string, seq<int>>, sinceSweep: nat)

  const IDLE: Limiter := Limiter(map[], 0)

  // What is left from the first timestamp later than the threshold.
  function Prune(window: seq<int>, threshold: int): seq<int> {
    if window == [] then []
    else if window[0] > threshold then window
    else Prune(window[1..], threshold)
  }

  function WindowOf(windows: map<string, seq<int>>, key: string): seq<int> {
    if key in windows then windows[key] else []
  }

  function Swept(windows: map<string, seq<int>>, threshold: int): map<string, seq<int>> {
    map k | k in windows && Prune(windows[k], threshold) != [] :: Prune(windows[k], threshold)
  }

  function Judge(c: Config, window: seq<int>, at: int): Verdict {
    if |window| >= c.limit && window != [] then
      Denied(Max(1, CeilDiv(window[0] + c.windowMs - at, 1000)))
    else Allowed(c.limit - |window| - 1)
  }

  // Every 512th call sweeps the windows of all keys.
  function Base(s: Limiter, threshold: int): map<string, seq<int>> {
    if s.sinceSweep + 1 >= SWEEP_EVERY then Swept(s.windows, threshold) else s.windows
  }

  function Kept(c: Config, window: seq<int>, at: int): seq<int> {
    if Judge(c, window, at).Allowed? then window + [at] else window
  }

  // One call of `hit`, with the clock it reads.
  function Step(c: Config, s: Limiter, h: Hit): (Limiter, Verdict) {
    var windows := Base(s, h.at - c.windowMs);
    var window := Prune(WindowOf(windows, h.key), h.at - c.windowMs);
    (Limiter(windows[h.key := Kept(c, window, h.at)], if s.sinceSweep + 1 >= SWEEP_EVERY then 0 else s.sinceSweep + 1),
     Judge(c, window, h.at))
  }

  function Run(c: Config, hits: seq<Hit>): Limiter {
    if hits == [] then IDLE else Step(c, Run(c, hits[..|hits| - 1]), hits[|hits| - 1]).0
  }

  // The verdict on one more hit after a run.
  function Answer(c: Config, hits: seq<Hit>, h: Hit): Verdict {
    Step(c, Run(c, hits), h).1
  }

  // The plain definition: the allowed hits so far, and those of one key that are recent.
  function Recent(history: seq<Hit>, key: string, threshold: int): seq<int> {
    if history == [] then []
    else
      var last := history[|history| - 1];
      Recent(history[..|history| - 1], key, threshold)
      + if last.key == key && last.at > threshold then [last.at] else []
  }

  predicate Permits(c: Config, history: seq<Hit>, h: Hit) {
    var recent := Recent(history, h.key, h.at - c.windowMs);
    |recent| < c.limit || recent == []
  }

  function History(c: Config, hits: seq<Hit>): seq<Hit> {
    if hits == [] then []
    else
      var before, h := History(c, hits[..|hits| - 1]), hits[|hits| - 1];
      before + if Permits(c, before, h) then [h] else []
  }

  // The clock does not run backwards.
  predicate Clocked(hits: seq<Hit>) {
    forall i, j :: 0 <= i < j < |hits| ==> hits[i].at <= hits[j].at
  }

  lemma {:induction false} PruneTwice(window: seq<int>, a: int, b: int)
    requires a <= b
    ensures Prune(Prune(window, a), b) == Prune(window, b)
  {
    if window != [] && window[0] <= a {
      PruneTwice(window[1..], a, b);
    }
  }

  lemma {:induction false} PruneAppend(window: seq<int>, at: int, threshold: int)
    ensures Prune(window + [at], threshold)
            == if Prune(window, threshold) != [] then Prune(window, threshold) + [at] else Prune([at], threshold)
  {
    if window == [] {
      assert window + [at] == [at];
    } else {
      assert (window + [at])[1..] == window[1..] + [at];
      if window[0] <= threshold {
        PruneAppend(window[1..], at, threshold);
      }
    }
  }

  // Nothing recent is missing: a window prunes to the recent allowed hits, now and later.
  ghost predicate Faithful(window: seq<int>, history: seq<Hit>, key: string, since: int) {
    forall threshold :: threshold >= since ==> Prune(window, threshold) == Recent(history, key, threshold)
  }

  ghost predicate Tracks(windows: map<string, seq<int>>, history: seq<Hit>, since: int) {
    forall key :: Faithful(WindowOf(windows, key), history, key, since)
  }

  lemma FaithfulAfter(window: seq<int>, history: seq<Hit>, key: string, since: int, threshold: int)
    requires Faithful(window, history, key, since) && threshold >= since
    ensures Faithful(Prune(window, threshold), history, key, threshold)
  {
    forall later | later >= threshold
      ensures Prune(Prune(window, threshold), later) == Recent(history, key, later)
    {
      PruneTwice(window, threshold, later);
    }
  }

  // A sweep, due or not, keeps what will ever be asked for again.
  lemma SweepTracks(windows: map<string, seq<int>>, history: seq<Hit>, since: int, threshold: int)
    requires Tracks(windows, history, since) && threshold >= since
    ensures Tracks(windows, history, threshold) && Tracks(Swept(windows, threshold), history, threshold)
  {
    forall key
      ensures Faithful(WindowOf(windows, key), history, key, threshold)
      ensures Faithful(WindowOf(Swept(windows, threshold), key), history, key, threshold)
    {
      assert Faithful(WindowOf(windows, key), history, key, since);
      FaithfulAfter(WindowOf(windows, key), history, key, since, threshold);
    }
  }

  // A hit of another key changes nothing recent.
  lemma RecentOther(history: seq<Hit>, h: Hit, key: string, threshold: int)
    ensures Recent(history + [h], key, threshold)
            == Recent(history, key, threshold) + if h.key == key && h.at > threshold then [h.at] else []
  {
    assert (history + [h])[..|history|] == history;
  }

  lemma {:induction false} RecentBefore(history: seq<Hit>, key: string, threshold: int)
    requires forall i :: 0 <= i < |history| ==> history[i].at <= threshold
    ensures Recent(history, key, threshold) == []
  {
    if history != [] {
      RecentBefore(history[..|history| - 1], key, threshold);
    }
  }

  lemma FaithfulPush(window: seq<int>, history: seq<Hit>, h: Hit, since: int)
    requires Faithful(window, history, h.key, since)
    requires forall i :: 0 <= i < |history| ==> history[i].at <= h.at
    ensures Faithful(window + [h.at], history + [h], h.key, since)
  {
    forall threshold | threshold >= since
      ensures Prune(window + [h.at], threshold) == Recent(history + [h], h.key, threshold)
    {
      PruneAppend(window, h.at, threshold);
      RecentOther(history, h, h.key, threshold);
      if threshold >= h.at {
        RecentBefore(history, h.key, threshold);
      }
    }
  }

  lemma FaithfulSkip(window: seq<int>, history: seq<Hit>, h: Hit, key: string, since: int)
    requires Faithful(window, history, key, since) && key != h.key
    ensures Faithful(window, history + [h], key, since)
  {
    forall threshold | threshold >= since
      ensures Prune(window, threshold) == Recent(history + [h], key, threshold)
    {
      RecentOther(history, h, key, threshold);
    }
  }

  lemma KeepTracks(windows: map<string, seq<int>>, history: seq<Hit>, h: Hit, window: seq<int>, threshold: int,
                   permitted: bool)
    requires Tracks(windows, history, threshold) && Faithful(window, history, h.key, threshold)
    requires forall i :: 0 <= i < |history| ==> history[i].at <= h.at
    ensures Tracks(windows[h.key := if permitted then window + [h.at] else window],
                   history + if permitted then [h] else [], threshold)
  {
    var next := windows[h.key := if permitted then window + [h.at] else window];
    var later := history + if permitted then [h] else [];
    forall key ensures Faithful(WindowOf(next, key), later, key, threshold) {
      assert Faithful(WindowOf(windows, key), history, key, threshold);
      if !permitted {
        assert later == history;
      } else if key != h.key {
        FaithfulSkip(WindowOf(windows, key), history, h, key, threshold);
      } else {
        FaithfulPush(window, history, h, threshold);
      }
    }
  }

  lemma BaseTracks(s: Limiter, history: seq<Hit>, since: int, threshold: int)
    requires Tracks(s.windows, history, since) && threshold >= since
    ensures Tracks(Base(s, threshold), history, threshold)
  {
    SweepTracks(s.windows, history, since, threshold);
  }

  lemma WindowIsRecent(windows: map<string, seq<int>>, history: seq<Hit>, key: string, threshold: int)
    requires Tracks(windows, history, threshold)
    ensures Prune(WindowOf(windows, key), threshold) == Recent(history, key, threshold)
    ensures Faithful(Prune(WindowOf(windows, key), threshold), history, key, threshold)
  {
    assert Faithful(WindowOf(windows, key), history, key, threshold);
    FaithfulAfter(WindowOf(windows, key), history, key, threshold, threshold);
  }

  // The window of the hit key, pruned.
  function Current(c: Config, s: Limiter, h: Hit): seq<int> {
    Prune(WindowOf(Base(s, h.at - c.windowMs), h.key), h.at - c.windowMs)
  }

  lemma CurrentIsRecent(c: Config, s: Limiter, history: seq<Hit>, h: Hit, since: int)
    requires Tracks(s.windows, history, since) && since <= h.at - c.windowMs
    ensures Current(c, s, h) == Recent(history, h.key, h.at - c.windowMs)
    ensures Faithful(Current(c, s, h), history, h.key, h.at - c.windowMs)
    ensures Tracks(Base(s, h.at - c.windowMs), history, h.at - c.windowMs)
  {
    BaseTracks(s, history, since, h.at - c.windowMs);
    WindowIsRecent(Base(s, h.at - c.windowMs), history, h.key, h.at - c.windowMs);
  }

  lemma StepIs(c: Config, s: Limiter, h: Hit, window: seq<int>, permitted: bool)
    requires window == Current(c, s, h) && (permitted <==> |window| < c.limit || window == [])
    ensures Step(c, s, h).0.windows
            == Base(s, h.at - c.windowMs)[h.key := if permitted then window + [h.at] else window]
    ensures Step(c, s, h).1 == Judge(c, window, h.at)
  {
  }

  // One hit: the verdict is the plain one ...
  lemma StepVerdict(c: Config, s: Limiter, history: seq<Hit>, h: Hit, since: int)
    requires Tracks(s.windows, history, since) && since <= h.at - c.windowMs
    ensures Step(c, s, h).1 == Judge(c, Recent(history, h.key, h.at - c.windowMs), h.at)
  {
    CurrentIsRecent(c, s, history, h, since);
  }

  // ... and the windows go on tracking the history.
  lemma StepTracks(c: Config, s: Limiter, history: seq<Hit>, h: Hit, since: int)
    requires Tracks(s.windows, history, since) && since <= h.at - c.windowMs
    requires forall i :: 0 <= i < |history| ==> history[i].at <= h.at
    ensures Tracks(Step(c, s, h).0.windows, history + if Permits(c, history, h) then [h] else [], h.at - c.windowMs)
  {
    CurrentIsRecent(c, s, history, h, since);
    var window, permitted := Current(c, s, h), Permits(c, history, h);
    KeepTracks(Base(s, h.at - c.windowMs), history, h, window, h.at - c.windowMs, permitted);
    StepIs(c, s, h, window, permitted);
  }

  lemma {:induction false} HistoryBefore(c: Config, hits: seq<Hit>, at: int)
    requires forall i :: 0 <= i < |hits| ==> hits[i].at <= at
    ensures forall i :: 0 <= i < |History(c, hits)| ==> History(c, hits)[i].at <= at
  {
    if hits != [] {
      HistoryBefore(c, hits[..|hits| - 1], at);
    }
  }

  lemma {:induction false} RunTracks(c: Config, hits: seq<Hit>, h: Hit)
    requires Clocked(hits + [h])
    ensures Tracks(Run(c, hits).windows, History(c, hits), h.at - c.windowMs)
    ensures forall i :: 0 <= i < |History(c, hits)| ==> History(c, hits)[i].at <= h.at
    decreases |hits|
  {
    var all := hits + [h];
    forall i | 0 <= i < |hits| ensures hits[i].at <= h.at {
      assert all[i].at <= all[|hits|].at;
    }
    HistoryBefore(c, hits, h.at);
    if hits == [] {
      forall key ensures Faithful(WindowOf(IDLE.windows, key), [], key, h.at - c.windowMs) {
      }
    } else {
      var early, last := hits[..|hits| - 1], hits[|hits| - 1];
      assert early + [last] == hits;
      forall i, j | 0 <= i < j < |hits| ensures hits[i].at <= hits[j].at {
        assert all[i].at <= all[j].at;
      }
      RunTracks(c, early, last);
      StepTracks(c, Run(c, early), History(c, early), last, last.at - c.windowMs);
      SweepTracks(Run(c, hits).windows, History(c, hits), last.at - c.windowMs, h.at - c.windowMs);
    }
  }

  lemma RefinesJudge(c: Config, hits: seq<Hit>, h: Hit)
    requires Clocked(hits + [h])
    ensures Answer(c, hits, h) == Judge(c, Recent(History(c, hits), h.key, h.at - c.windowMs), h.at)
  {
    RunTracks(c, hits, h);
    StepVerdict(c, Run(c, hits), History(c, hits), h, h.at - c.windowMs);
  }

  /** The fast form refines the plain one. After any run, whatever was swept and whoever else hit,
      the verdict is settled by the allowed hits of that key in the last window: their number, and
      the oldest of them. */
  lemma Refines(c: Config, hits: seq<Hit>, h: Hit)
    requires Clocked(hits + [h])
    ensures var recent := Recent(History(c, hits), h.key, h.at - c.windowMs);
            var verdict := Answer(c, hits, h);
      && (verdict.Allowed? <==> |recent| < c.limit || |recent| == 0)
      && (verdict.Allowed? ==> verdict.remaining == c.limit - |recent| - 1)
      && (verdict.Denied? ==> verdict.resetSeconds == Max(1, CeilDiv(recent[0] + c.windowMs - h.at, 1000)))
  {
    RefinesJudge(c, hits, h);
  }

  lemma {:induction false} RecentShrinks(history: seq<Hit>, key: string, early: int, late: int)
    requires early <= late
    ensures |Recent(history, key, late)| <= |Recent(history, key, early)|
  {
    if history != [] {
      RecentShrinks(history[..|history| - 1], key, early, late);
    }
  }

  // The hits of one key inside the window that ends at some instant.
  function Within(history: seq<Hit>, key: string, after: int, upTo: int): seq<int> {
    if history == [] then []
    else
      var last := history[|history| - 1];
      Within(history[..|history| - 1], key, after, upTo)
      + if last.key == key && after < last.at <= upTo then [last.at] else []
  }

  lemma {:induction false} WithinRecent(history: seq<Hit>, key: string, after: int, upTo: int)
    ensures |Within(history, key, after, upTo)| <= |Recent(history, key, after)|
  {
    if history != [] {
      WithinRecent(history[..|history| - 1], key, after, upTo);
    }
  }

  lemma HistoryStep(c: Config, hits: seq<Hit>, h: Hit)
    ensures History(c, hits + [h]) == History(c, hits) + if Permits(c, History(c, hits), h) then [h] else []
  {
    assert (hits + [h])[..|hits|] == hits;
  }

  lemma WithinStep(history: seq<Hit>, h: Hit, key: string, after: int, upTo: int)
    ensures |Within(history + [h], key, after, upTo)|
            == |Within(history, key, after, upTo)| + if h.key == key && after < h.at <= upTo then 1 else 0
  {
    assert (history + [h])[..|history|] == history;
  }

  /** The point of the limiter: wherever a window of `windowMs` is laid over a run, it holds no more
      allowed hits of one key than the limit (or one, when the limit is below one). */
  lemma {:induction false} NeverOver(c: Config, hits: seq<Hit>, key: string, upTo: int)
    requires Clocked(hits)
    ensures |Within(History(c, hits), key, upTo - c.windowMs, upTo)| <= Max(c.limit, 1)
    decreases |hits|
  {
    if hits != [] {
      var early, h := hits[..|hits| - 1], hits[|hits| - 1];
      assert early + [h] == hits;
      NeverOver(c, early, key, upTo);
      var before := History(c, early);
      HistoryStep(c, early, h);
      WithinStep(before, h, key, upTo - c.windowMs, upTo);
      WithinRecent(before, key, upTo - c.windowMs, upTo);
      assert before + [] == before;
      if h.at <= upTo {
        RecentShrinks(before, key, h.at - c.windowMs, upTo - c.windowMs);
      }
    }
  }

  // The hits of one key in a run.
  function Own(hits: seq<Hit>, key: string): seq<Hit> {
    if hits == [] then []
    else Own(hits[..|hits| - 1], key) + if hits[|hits| - 1].key == key then [hits[|hits| - 1]] else []
  }

  lemma OwnStep(hits: seq<Hit>, h: Hit, key: string)
    ensures Own(hits + [h], key) == Own(hits, key) + if h.key == key then [h] else []
  {
    assert (hits + [h])[..|hits|] == hits;
  }

  lemma {:induction false} RecentOwn(history: seq<Hit>, key: string, threshold: int)
    ensures Recent(Own(history, key), key, threshold) == Recent(history, key, threshold)
    decreases |history|
  {
    if history != [] {
      var early, last := history[..|history| - 1], history[|history| - 1];
      RecentOwn(early, key, threshold);
      if last.key == key {
        RecentOther(Own(early, key), last, key, threshold);
      } else {
        assert Own(early, key) + [] == Own(early, key);
        assert Recent(early, key, threshold) + [] == Recent(early, key, threshold);
      }
    }
  }

  lemma {:induction false} HistoryOwn(c: Config, hits: seq<Hit>, key: string)
    ensures History(c, Own(hits, key)) == Own(History(c, hits), key)
    decreases |hits|
  {
    if hits != [] {
      var early, h := hits[..|hits| - 1], hits[|hits| - 1];
      assert early + [h] == hits;
      HistoryOwn(c, early, key);
      OwnStep(early, h, key);
      HistoryStep(c, early, h);
      OwnAdmits(c, early, h, key);
    }
  }

  lemma OwnAdmits(c: Config, hits: seq<Hit>, h: Hit, key: string)
    requires History(c, Own(hits, key)) == Own(History(c, hits), key)
    ensures History(c, Own(hits + [h], key)) == Own(History(c, hits + [h]), key)
  {
    hide Own, History, Recent;
    var history := History(c, hits);
    OwnStep(hits, h, key);
    HistoryStep(c, hits, h);
    if h.key == key {
      HistoryStep(c, Own(hits, key), h);
      RecentOwn(history, key, h.at - c.windowMs);
    } else {
      assert Own(hits, key) + [] == Own(hits, key);
    }
    if Permits(c, history, h) {
      OwnStep(history, h, key);
    } else {
      assert history + [] == history;
    }
  }

  lemma {:induction false} OwnClocked(hits: seq<Hit>, key: string, at: int)
    requires Clocked(hits) && forall i :: 0 <= i < |hits| ==> hits[i].at <= at
    ensures Clocked(Own(hits, key)) && forall i :: 0 <= i < |Own(hits, key)| ==> Own(hits, key)[i].at <= at
  {
    if hits != [] {
      OwnClocked(hits[..|hits| - 1], key, hits[|hits| - 1].at);
    }
  }

  // A clocked run, taken apart at its last hit.
  lemma ClockedLast(hits: seq<Hit>, h: Hit)
    ensures Clocked(hits + [h]) <==> Clocked(hits) && forall i :: 0 <= i < |hits| ==> hits[i].at <= h.at
  {
    var all := hits + [h];
    assert all[|hits|] == h;
    assert forall i :: 0 <= i < |hits| ==> all[i] == hits[i];
  }

  lemma OwnRecent(c: Config, hits: seq<Hit>, key: string, threshold: int)
    ensures Recent(History(c, Own(hits, key)), key, threshold) == Recent(History(c, hits), key, threshold)
  {
    HistoryOwn(c, hits, key);
    RecentOwn(History(c, hits), key, threshold);
  }

  lemma OwnRun(hits: seq<Hit>, h: Hit)
    requires Clocked(hits + [h])
    ensures Clocked(Own(hits, h.key) + [h])
  {
    ClockedLast(hits, h);
    OwnClocked(hits, h.key, h.at);
    ClockedLast(Own(hits, h.key), h);
  }

  /** Budgets are separate: a key gets the verdict it would get had no other key ever hit. */
  lemma Independent(c: Config, hits: seq<Hit>, h: Hit)
    requires Clocked(hits + [h])
    ensures Answer(c, hits, h) == Answer(c, Own(hits, h.key), h)
  {
    hide Recent, History, Clocked, Own;
    var own := Own(hits, h.key);
    OwnRun(hits, h);
    OwnRecent(c, hits, h.key, h.at - c.windowMs);
    RefinesJudge(c, hits, h);
    RefinesJudge(c, own, h);
  }

  lemma {:induction false} HistoryClocked(c: Config, hits: seq<Hit>)
    requires Clocked(hits)
    ensures Clocked(History(c, hits))
    decreases |hits|
  {
    if hits != [] {
      var early, h := hits[..|hits| - 1], hits[|hits| - 1];
      assert early + [h] == hits;
      HistoryClocked(c, early);
      HistoryBefore(c, early, h.at);
      HistoryStep(c, early, h);
      ClockedLast(History(c, early), h);
      assert History(c, early) + [] == History(c, early);
    }
  }

  lemma {:induction false} RecentUpTo(history: seq<Hit>, key: string, threshold: int, at: int)
    requires forall i :: 0 <= i < |history| ==> history[i].at <= at
    ensures forall i :: 0 <= i < |Recent(history, key, threshold)| ==> threshold < Recent(history, key, threshold)[i] <= at
    decreases |history|
  {
    if history != [] {
      RecentUpTo(history[..|history| - 1], key, threshold, at);
    }
  }

  /** A later look at the same history: while the oldest recent hit is alive all of them are, and
      once it is not, fewer are. */
  lemma {:induction false} RecentLater(history: seq<Hit>, key: string, early: int, late: int)
    requires Clocked(history) && early <= late && Recent(history, key, early) != []
    ensures var before, after := Recent(history, key, early), Recent(history, key, late);
      (late < before[0] ==> after == before) && (late >= before[0] ==> |after| < |before|)
    decreases |history|
  {
    var init, h := history[..|history| - 1], history[|history| - 1];
    if Recent(init, key, early) == [] {
      RecentShrinks(init, key, early, late);
    } else {
      RecentLater(init, key, early, late);
      RecentUpTo(init, key, early, h.at);
      RecentShrinks(init, key, early, late);
    }
  }

  lemma {:induction false} HistoryOthers(c: Config, hits: seq<Hit>, more: seq<Hit>, key: string, threshold: int)
    requires forall i :: 0 <= i < |more| ==> more[i].key != key
    ensures Recent(History(c, hits + more), key, threshold) == Recent(History(c, hits), key, threshold)
    decreases |more|
  {
    if more == [] {
      assert hits + more == hits;
    } else {
      var early, h := more[..|more| - 1], more[|more| - 1];
      assert hits + more == (hits + early) + [h];
      HistoryOthers(c, hits, early, key, threshold);
      HistoryStep(c, hits + early, h);
      RecentOther(History(c, hits + early), h, key, threshold);
      assert History(c, hits + early) + [] == History(c, hits + early);
    }
  }

  lemma AtMost(c: Config, hits: seq<Hit>, h: Hit)
    requires Clocked(hits + [h])
    ensures |Recent(History(c, hits), h.key, h.at - c.windowMs)| <= Max(c.limit, 1)
  {
    ClockedLast(hits, h);
    HistoryBefore(c, hits, h.at);
    NeverOver(c, hits, h.key, h.at);
    WithinAll(History(c, hits), h.key, h.at - c.windowMs, h.at);
  }

  lemma {:induction false} WithinAll(history: seq<Hit>, key: string, after: int, upTo: int)
    requires forall i :: 0 <= i < |history| ==> history[i].at <= upTo
    ensures Within(history, key, after, upTo) == Recent(history, key, after)
    decreases |history|
  {
    if history != [] {
      WithinAll(history[..|history| - 1], key, after, upTo);
    }
  }

  // After a denial the history stands still while only others hit.
  lemma DeniedLeaves(c: Config, hits: seq<Hit>, h: Hit, others: seq<Hit>, threshold: int)
    requires !Permits(c, History(c, hits), h)
    requires forall i :: 0 <= i < |others| ==> others[i].key != h.key
    ensures Recent(History(c, hits + [h] + others), h.key, threshold) == Recent(History(c, hits), h.key, threshold)
  {
    HistoryStep(c, hits, h);
    assert History(c, hits) + [] == History(c, hits);
    HistoryOthers(c, hits + [h], others, h.key, threshold);
  }

  lemma ClockedPrefix(hits: seq<Hit>, h: Hit, others: seq<Hit>, again: Hit)
    requires Clocked(hits + [h] + others + [again])
    ensures Clocked(hits + [h]) && Clocked(hits)
  {
    var all := hits + [h] + others + [again];
    assert forall i :: 0 <= i <= |hits| ==> (hits + [h])[i] == all[i];
    ClockedLast(hits, h);
  }

  // What is recent at a denial, and what of it is still recent later.
  lemma AfterDenial(c: Config, hits: seq<Hit>, h: Hit, others: seq<Hit>, again: Hit)
    requires !Permits(c, History(c, hits), h) && again.key == h.key && again.at >= h.at
    requires forall i :: 0 <= i < |others| ==> others[i].key != h.key
    requires Clocked(hits + [h])
    ensures var before := Recent(History(c, hits), h.key, h.at - c.windowMs);
            var after := Recent(History(c, hits + [h] + others), again.key, again.at - c.windowMs);
      && before != [] && c.limit <= |before| <= Max(c.limit, 1)
      && (again.at - c.windowMs < before[0] ==> after == before)
      && (again.at - c.windowMs >= before[0] ==> |after| < |before|)
  {
    hide Recent, History, Clocked;
    ClockedLast(hits, h);
    AtMost(c, hits, h);
    DeniedLeaves(c, hits, h, others, again.at - c.windowMs);
    HistoryClocked(c, hits);
    RecentLater(History(c, hits), h.key, h.at - c.windowMs, again.at - c.windowMs);
  }

  /** What `resetSeconds` promises: a denied key that then stays silent, whatever the others do, is
      let through again after `seconds` whole seconds exactly when `seconds >= resetSeconds`. */
  lemma ResetIsExact(c: Config, hits: seq<Hit>, h: Hit, others: seq<Hit>, again: Hit, seconds: nat)
    requires Answer(c, hits, h).Denied? && again.key == h.key && again.at == h.at + 1000 * seconds && seconds >= 1
    requires forall i :: 0 <= i < |others| ==> others[i].key != h.key
    requires Clocked(hits + [h] + others + [again])
    ensures Answer(c, hits + [h] + others, again).Allowed? <==> seconds >= Answer(c, hits, h).resetSeconds
  {
    hide Recent, History;
    ClockedPrefix(hits, h, others, again);
    Refines(c, hits, h);
    Refines(c, hits + [h] + others, again);
    AfterDenial(c, hits, h, others, again);
    WholeSeconds(Recent(History(c, hits), h.key, h.at - c.windowMs)[0] + c.windowMs - h.at, seconds);
  }

  lemma WholeSeconds(gap: int, seconds: nat)
    requires seconds >= 1
    ensures seconds >= Max(1, CeilDiv(gap, 1000)) <==> 1000 * seconds >= gap
  {
  }

  // A run, then the same hit `n` times over.
  function Burst(hits: seq<Hit>, h: Hit, n: nat): seq<Hit> {
    if n == 0 then hits else Burst(hits, h, n - 1) + [h]
  }

  // How much of its limit a key has used up.
  function Used(c: Config, hits: seq<Hit>, h: Hit): nat {
    |Recent(History(c, hits), h.key, h.at - c.windowMs)|
  }

  lemma PermittedCounts(c: Config, hits: seq<Hit>, h: Hit)
    requires c.windowMs > 0 && Used(c, hits, h) < c.limit
    ensures Used(c, hits + [h], h) == Used(c, hits, h) + 1
  {
    var history := History(c, hits);
    HistoryStep(c, hits, h);
    assert Permits(c, history, h);
    RecentOther(history, h, h.key, h.at - c.windowMs);
  }

  // Permitted hits of one instant pile up.
  lemma {:induction false} BurstUses(c: Config, hits: seq<Hit>, h: Hit, n: nat)
    requires c.windowMs > 0 && n <= c.limit - Used(c, hits, h)
    ensures Used(c, Burst(hits, h, n), h) == Used(c, hits, h) + n
    decreases n
  {
    if n > 0 {
      BurstUses(c, hits, h, n - 1);
      PermittedCounts(c, Burst(hits, h, n - 1), h);
    }
  }

  lemma {:induction false} BurstClocked(hits: seq<Hit>, h: Hit, n: nat)
    requires Clocked(hits + [h])
    ensures Clocked(Burst(hits, h, n) + [h])
    decreases n
  {
    if n > 0 {
      BurstClocked(hits, h, n - 1);
      ClockedLast(Burst(hits, h, n - 1) + [h], h);
      ClockedLast(Burst(hits, h, n - 1), h);
    }
  }

  lemma AllowedIff(c: Config, hits: seq<Hit>, h: Hit)
    requires Clocked(hits + [h]) && c.limit >= 1
    ensures Answer(c, hits, h).Allowed? <==> Used(c, hits, h) < c.limit
    ensures Answer(c, hits, h).Allowed? ==> Answer(c, hits, h).remaining == c.limit - Used(c, hits, h) - 1
  {
    Refines(c, hits, h);
  }

  /** What `remaining` promises: exactly that many more hits of the key pass at the same instant. */
  lemma RemainingIsExact(c: Config, hits: seq<Hit>, h: Hit, more: nat)
    requires Clocked(hits + [h]) && c.windowMs > 0 && c.limit >= 1 && Answer(c, hits, h).Allowed?
    requires more <= Answer(c, hits, h).remaining
    ensures Answer(c, Burst(hits, h, more + 1), h).Allowed? <==> more < Answer(c, hits, h).remaining
  {
    AllowedIff(c, hits, h);
    BurstUses(c, hits, h, more + 1);
    BurstClocked(hits, h, more + 1);
    AllowedIff(c, Burst(hits, h, more + 1), h);
  }

  // How many calls had been made when the last sweep was over, or none.
  function LastSweep(n: nat): (m: nat)
    ensures m <= n
  {
    n - n % 512
  }

  // What the limiter may still hold of a key: it was hit at the last sweep or since, or had recent hits
  // when that sweep looked at it.
  ghost predicate Remembered(c: Config, hits: seq<Hit>, key: string) {
    var m := LastSweep(|hits|);
    || (exists i :: 0 <= i < |hits| && m <= i + 1 && hits[i].key == key)
    || (m > 0 && Recent(History(c, hits[..m - 1]), key, hits[m - 1].at - c.windowMs) != [])
  }

  lemma {:induction false} SweepsEvery(c: Config, hits: seq<Hit>)
    ensures Run(c, hits).sinceSweep == |hits| % 512
  {
    if hits != [] {
      SweepsEvery(c, hits[..|hits| - 1]);
    }
  }

  lemma RememberedOn(c: Config, hits: seq<Hit>, h: Hit, key: string)
    requires LastSweep(|hits| + 1) == LastSweep(|hits|) && Remembered(c, hits, key)
    ensures Remembered(c, hits + [h], key)
  {
    var all, m := hits + [h], LastSweep(|hits|);
    if m > 0 {
      assert all[..m - 1] == hits[..m - 1];
    }
    if i :| 0 <= i < |hits| && m <= i + 1 && hits[i].key == key {
      assert all[i].key == key;
    }
  }

  // The key of the last hit, and what its sweep left standing.
  lemma RememberedNow(c: Config, hits: seq<Hit>, h: Hit, key: string)
    requires key == h.key || (LastSweep(|hits| + 1) == |hits| + 1 && Recent(History(c, hits), key, h.at - c.windowMs) != [])
    ensures Remembered(c, hits + [h], key)
  {
    var all := hits + [h];
    assert all[|hits|] == h && all[..|hits|] == hits;
  }

  lemma SweepWhen(n: nat)
    ensures LastSweep(n + 1) == if n % 512 + 1 >= 512 then n + 1 else LastSweep(n)
  {
  }

  /** The limiter forgets: every 512 calls it drops each key whose hits have all left the window, so what
      it holds was hit at its last sweep or since, or was alive at that sweep. */
  lemma {:induction false} Forgets(c: Config, hits: seq<Hit>, key: string)
    requires Clocked(hits) && key in Run(c, hits).windows
    ensures Remembered(c, hits, key)
    decreases |hits|
  {
    hide Recent, History, Remembered, LastSweep;
    if hits != [] {
      var early, h := hits[..|hits| - 1], hits[|hits| - 1];
      assert hits == early + [h];
      ClockedLast(early, h);
      SweepsEvery(c, early);
      SweepWhen(|early|);
      if key == h.key {
        RememberedNow(c, early, h, key);
      } else if |early| % 512 + 1 >= 512 {
        RunTracks(c, early, h);
        WindowIsRecent(Run(c, early).windows, History(c, early), key, h.at - c.windowMs);
        RememberedNow(c, early, h, key);
      } else {
        Forgets(c, early, key);
        RememberedOn(c, early, h, key);
      }
    }
  }

  // Every timestamp a window holds is later than the threshold of the last sweep.
  ghost predicate Fresh(c: Config, hits: seq<Hit>, window: seq<int>) {
    var m := LastSweep(|hits|);
    m > 0 ==> forall t :: t in window ==> t > hits[m - 1].at - c.windowMs
  }

  lemma {:induction false} PrunedFrom(window: seq<int>, threshold: int)
    ensures forall t :: t in Prune(window, threshold) ==> t in window
  {
    if window != [] {
      PrunedFrom(window[1..], threshold);
    }
  }

  // The windows as they were before a hit that sweeps nothing, pruned or not, with the hit or without.
  lemma FreshOn(c: Config, hits: seq<Hit>, h: Hit, window: seq<int>, next: seq<int>)
    requires Clocked(hits + [h]) && c.windowMs > 0 && LastSweep(|hits| + 1) == LastSweep(|hits|) && Fresh(c, hits, window)
    requires forall t :: t in next ==> t in window || t == h.at
    ensures Fresh(c, hits + [h], next)
  {
    ClockedLast(hits, h);
    var all, m := hits + [h], LastSweep(|hits|);
    if m > 0 {
      assert all[m - 1] == hits[m - 1];
    }
  }

  // What the sweep of the last hit left of a window, with the hit or without.
  lemma FreshNow(c: Config, hits: seq<Hit>, h: Hit, key: string, next: seq<int>)
    requires Clocked(hits + [h]) && c.windowMs > 0
    requires forall t :: t in next ==> t in Recent(History(c, hits), key, h.at - c.windowMs) || t == h.at
    requires LastSweep(|hits| + 1) == |hits| + 1
    ensures Fresh(c, hits + [h], next)
  {
    assert (hits + [h])[|hits|] == h;
    ClockedLast(hits, h);
    HistoryBefore(c, hits, h.at);
    RecentUpTo(History(c, hits), key, h.at - c.windowMs, h.at);
  }

  // The window of a key after one more hit: what was there, pruned perhaps, and the hit perhaps.
  lemma StepWindow(c: Config, s: Limiter, h: Hit, key: string)
    requires key in Step(c, s, h).0.windows
    ensures var before, after := WindowOf(s.windows, key), Step(c, s, h).0.windows[key];
      && (forall t :: t in after ==> t in before || t == h.at)
      && (s.sinceSweep + 1 >= 512 ==> forall t :: t in after ==> t in Prune(before, h.at - c.windowMs) || t == h.at)
  {
    var before, threshold := WindowOf(s.windows, key), h.at - c.windowMs;
    PrunedFrom(before, threshold);
    PruneTwice(before, threshold, threshold);
    assert Prune([], threshold) == [];
    hide Prune, Judge;
    var base := WindowOf(Base(s, threshold), key);
    assert base == if s.sinceSweep + 1 >= 512 then Prune(before, threshold) else before;
    if key == h.key {
      assert Step(c, s, h).0.windows[key] == Kept(c, Prune(base, threshold), h.at);
    }
  }

  lemma NextWindow(c: Config, hits: seq<Hit>, h: Hit, key: string)
    requires key in Run(c, hits + [h]).windows
    ensures var before, after := WindowOf(Run(c, hits).windows, key), Run(c, hits + [h]).windows[key];
      && (forall t :: t in after ==> t in before || t == h.at)
      && (|hits| % 512 + 1 >= 512 ==> forall t :: t in after ==> t in Prune(before, h.at - c.windowMs) || t == h.at)
  {
    assert (hits + [h])[..|hits|] == hits;
    SweepsEvery(c, hits);
    assert Run(c, hits + [h]) == Step(c, Run(c, hits), h).0;
    hide Run, Step, Prune;
    StepWindow(c, Run(c, hits), h, key);
  }

  /** What it holds of a key was alive at its last sweep, timestamp by timestamp. */
  lemma {:induction false} HoldsTheLiving(c: Config, hits: seq<Hit>, key: string)
    requires Clocked(hits) && c.windowMs > 0
    ensures Fresh(c, hits, WindowOf(Run(c, hits).windows, key))
    decreases |hits|
  {
    hide Run, Recent, History, LastSweep, Clocked;
    if hits == [] {
      NothingSwept(c);
    } else {
      var early, h := hits[..|hits| - 1], hits[|hits| - 1];
      assert hits == early + [h];
      ClockedLast(early, h);
      SweepWhen(|early|);
      HoldsTheLiving(c, early, key);
      if key in Run(c, hits).windows {
        NextWindow(c, early, h, key);
        if |early| % 512 + 1 >= 512 {
          RunTracks(c, early, h);
          WindowIsRecent(Run(c, early).windows, History(c, early), key, h.at - c.windowMs);
          FreshNow(c, early, h, key, Run(c, hits).windows[key]);
        } else {
          FreshOn(c, early, h, WindowOf(Run(c, early).windows, key), Run(c, hits).windows[key]);
        }
      }
    }
  }

  lemma NothingSwept(c: Config)
    ensures forall window :: Fresh(c, [], window)
  {
  }

  lemma StepHolds(c: Config, s: Limiter, h: Hit)
    ensures h.key in Step(c, s, h).0.windows && Step(c, s, h).0.windows[h.key] == Kept(c, Current(c, s, h), h.at)
  {
  }

  lemma KeptIsRecent(c: Config, history: seq<Hit>, h: Hit)
    requires c.windowMs > 0
    ensures Kept(c, Recent(history, h.key, h.at - c.windowMs), h.at)
            == Recent(history + if Permits(c, history, h) then [h] else [], h.key, h.at - c.windowMs)
  {
    RecentOther(history, h, h.key, h.at - c.windowMs);
    assert history + [] == history;
    hide Recent;
  }

  /** After every hit the limiter holds of its key the recent allowed hits and nothing else, whether the
      hit was let through or denied. */
  lemma HitWindowIsRecent(c: Config, hits: seq<Hit>, h: Hit)
    requires Clocked(hits + [h]) && c.windowMs > 0
    ensures h.key in Run(c, hits + [h]).windows
    ensures Run(c, hits + [h]).windows[h.key] == Recent(History(c, hits + [h]), h.key, h.at - c.windowMs)
  {
    assert (hits + [h])[..|hits|] == hits;
    assert Run(c, hits + [h]) == Step(c, Run(c, hits), h).0;
    hide Run, Step, Kept, Current, Recent, History, Tracks, Permits, Clocked;
    RunTracks(c, hits, h);
    CurrentIsRecent(c, Run(c, hits), History(c, hits), h, h.at - c.windowMs);
    HistoryStep(c, hits, h);
    KeptIsRecent(c, History(c, hits), h);
    StepHolds(c, Run(c, hits), h);
  }

  lemma {:induction false} PruneIsShorter(window: seq<int>, threshold: int)
    ensures |Prune(window, threshold)| <= |window|
  {
    if window != [] {
      PruneIsShorter(window[1..], threshold);
    }
  }

  /** And of no key does it hold more timestamps than the limit. */
  lemma {:induction false} WindowsAreShort(c: Config, hits: seq<Hit>, key: string)
    requires key in Run(c, hits).windows
    ensures |Run(c, hits).windows[key]| <= Max(c.limit, 1)
    decreases |hits|
  {
    if hits != [] {
      var early, h := hits[..|hits| - 1], hits[|hits| - 1];
      var before := Run(c, early);
      if key in before.windows {
        WindowsAreShort(c, early, key);
        PruneIsShorter(before.windows[key], h.at - c.windowMs);
        PruneIsShorter(Prune(before.windows[key], h.at - c.windowMs), h.at - c.windowMs);
      }
    }
  }

  /** The limiter of the middleware. `hit` reads the clock; here the reading is a parameter. */
  class RateLimiter {
    const config: Config
    var windows: map<string, seq<int>>
    var sinceSweep: nat

    constructor (config: Config)
      ensures this.config == config && View() == IDLE
    {
      this.config, windows, sinceSweep := config, map[], 0;
    }

    function View(): Limiter
      reads this
    {
      Limiter(windows, sinceSweep)
    }

    method Sweep(threshold: int)
      modifies this`windows
      ensures windows == Swept(old(windows), threshold)
    {
      var keys := windows.Keys;
      while keys != {}
        invariant keys <= old(windows).Keys
        invariant forall k :: k in windows <==>
                    k in old(windows) && (k in keys || Prune(old(windows)[k], threshold) != [])
        invariant forall k :: k in windows ==>
                    windows[k] == if k in keys then old(windows)[k] else Prune(old(windows)[k], threshold)
      {
        var key :| key in keys;
        var alive := Prune(windows[key], threshold);
        windows := if alive == [] then windows - {key} else windows[key := alive];
        keys := keys - {key};
      }
    }

    method TakeHit(key: string, at: int) returns (verdict: Verdict)
      modifies this
      ensures (View(), verdict) == Step(config, old(View()), Hit(key, at))
    {
      var threshold := at - config.windowMs;
      sinceSweep := sinceSweep + 1;
      if sinceSweep >= SWEEP_EVERY {
        sinceSweep := 0;
        Sweep(threshold);
      }
      var window := Prune(WindowOf(windows, key), threshold);
      if |window| >= config.limit && window != [] {
        windows := windows[key := window];
        return Denied(Max(1, CeilDiv(window[0] + config.windowMs - at, 1000)));
      }
      window := window + [at];
      windows := windows[key := window];
      verdict := Allowed(config.limit - |window|);
    }
  }
}
