/** What a process leaves behind: the transactions that it has not applied and that lie before the place
    where its next backfill pass begins. */
module Gaps {
  import opened Common
  import opened Runs
  import opened Ledger
  import opened Indexer
  import opened History
  import opened Samples
  import Backfill

  // Arrival `i` is the first success of its transaction in this process, and no success from a later
  // slot came before it.
  predicate News(initial: Option<Cursor>, arrivals: seq<Arrival>, i: nat)
    requires i < |arrivals|
  {
    && OnTime(initial, arrivals, i)
    && (initial.Some? ==> arrivals[i].signature != initial.value.signature)
    && forall j :: 0 <= j < i && arrivals[j].signature == arrivals[i].signature ==> !arrivals[j].handled
  }

  predicate Newest(initial: Option<Cursor>, arrivals: seq<Arrival>, i: nat)
    requires i < |arrivals|
  {
    News(initial, arrivals, i) && forall k :: i < k < |arrivals| ==> !News(initial, arrivals, k)
  }

  lemma NewsIsStable(initial: Option<Cursor>, arrivals: seq<Arrival>, n: nat, i: nat)
    requires i < n <= |arrivals|
    ensures News(initial, arrivals[..n], i) <==> News(initial, arrivals, i)
  {
    assert forall j :: 0 <= j <= i ==> arrivals[..n][j] == arrivals[j];
  }

  // While the last arrival is on time, what succeeded before it in its slot has been caught.
  lemma CaughtBefore(history: seq<Tx>, initial: Option<Cursor>, arrivals: seq<Arrival>)
    requires arrivals != [] && AllOfHistory(history, arrivals) && OnTime(initial, arrivals, |arrivals| - 1)
    ensures var n := |arrivals| - 1;
            Caught(initial, arrivals[..n], arrivals[n].signature)
            <==> (initial.Some? && initial.value.signature == arrivals[n].signature)
                 || exists j :: 0 <= j < n && arrivals[j].signature == arrivals[n].signature && arrivals[j].handled
  {
    var n := |arrivals| - 1;
    var before, sig := arrivals[..n], arrivals[n].signature;
    if j :| 0 <= j < n && arrivals[j].signature == sig && arrivals[j].handled {
      assert OfHistory(history, arrivals[j]) && OfHistory(history, arrivals[n]);
      assert arrivals[j].slot == arrivals[n].slot;
      assert before[j] == arrivals[j];
      assert OnTime(initial, before, j);
    }
    if j :| 0 <= j < n && before[j].signature == sig && OnTime(initial, before, j) {
      assert arrivals[j].signature == sig && arrivals[j].handled;
    }
  }

  // What is news, is applied.
  lemma NewsIsApplied(history: seq<Tx>, initial: Option<Cursor>, arrivals: seq<Arrival>)
    requires Confirmed(history) && PointsInto(history, initial) && AllOfHistory(history, arrivals) && arrivals != []
    ensures var n := |arrivals| - 1;
            Process(Indexer.Run(initial, arrivals[..n]), arrivals[n]).1.Applied? <==> News(initial, arrivals, n)
  {
    var n := |arrivals| - 1;
    var before, a := arrivals[..n], arrivals[n];
    assert OfHistory(history, a) && AllOfHistory(history, before);
    AppliedWhen(history, initial, before, a);
    PastIffOvertaken(initial, before, a.slot);
    OnTimeLast(initial, arrivals);
    AppliedIff(initial, before, a.signature);
    if OnTime(initial, arrivals, n) {
      CaughtBefore(history, initial, arrivals);
    }
  }

  // Where the cursor stands: at the newest success, or where the process started.
  ghost predicate StandsAt(initial: Option<Cursor>, arrivals: seq<Arrival>, now: Option<Cursor>) {
    || (exists i: nat :: i < |arrivals| && Newest(initial, arrivals, i) && now == Some(Cursor(arrivals[i].signature, arrivals[i].slot)))
    || (now == initial && forall i: nat :: i < |arrivals| ==> !News(initial, arrivals, i))
  }

  lemma StandsAtMore(initial: Option<Cursor>, arrivals: seq<Arrival>, a: Arrival, now: Option<Cursor>)
    requires StandsAt(initial, arrivals, now)
    ensures var all := arrivals + [a];
            StandsAt(initial, all, if News(initial, all, |arrivals|) then Some(Cursor(a.signature, a.slot)) else now)
  {
    var all, n := arrivals + [a], |arrivals|;
    assert all[..n] == arrivals;
    forall i: nat | i < n ensures News(initial, all, i) <==> News(initial, arrivals, i) {
      NewsIsStable(initial, all, n, i);
    }
    if News(initial, all, n) {
      assert Newest(initial, all, n);
    } else if i: nat :| i < n && Newest(initial, arrivals, i) && now == Some(Cursor(arrivals[i].signature, arrivals[i].slot)) {
      assert Newest(initial, all, i) && all[i] == arrivals[i];
    }
  }

  /** For any arrivals at all, the cursor is the newest success of the process, or where it started. */
  lemma {:induction false} CursorIsNewest(history: seq<Tx>, initial: Option<Cursor>, arrivals: seq<Arrival>)
    requires Confirmed(history) && PointsInto(history, initial) && AllOfHistory(history, arrivals)
    ensures StandsAt(initial, arrivals, Indexer.Run(initial, arrivals).cursor)
    decreases |arrivals|
  {
    if arrivals != [] {
      hide StandsAt, News, AppliedOf;
      var before, a := arrivals[..|arrivals| - 1], arrivals[|arrivals| - 1];
      assert before + [a] == arrivals;
      assert AllOfHistory(history, before);
      CursorIsNewest(history, initial, before);
      NewsIsApplied(history, initial, arrivals);
      StandsAtMore(initial, before, a, Indexer.Run(initial, before).cursor);
      OneMore(initial, before, a);
    }
  }

  // The newest success, or the starting point if there is none, lies after this place in the chain.
  ghost predicate StandsAfter(history: seq<Tx>, initial: Option<Cursor>, arrivals: seq<Arrival>, place: nat) {
    || (exists i: nat :: i < |arrivals| && Newest(initial, arrivals, i) && place < PlaceOf(history, arrivals[i].signature))
    || (initial.Some? && place < PlaceOf(history, initial.value.signature)
        && forall i: nat :: i < |arrivals| ==> !News(initial, arrivals, i))
  }

  lemma OneNewest(initial: Option<Cursor>, arrivals: seq<Arrival>, i: nat, j: nat)
    requires i < |arrivals| && j < |arrivals| && Newest(initial, arrivals, i) && Newest(initial, arrivals, j)
    ensures i == j
  {
  }

  lemma PastIffStandsAfter(history: seq<Tx>, initial: Option<Cursor>, arrivals: seq<Arrival>, place: nat)
    requires Confirmed(history) && PointsInto(history, initial) && AllOfHistory(history, arrivals)
    ensures place + 1 < Resume(history, Indexer.Run(initial, arrivals).cursor) <==> StandsAfter(history, initial, arrivals, place)
  {
    var now := Indexer.Run(initial, arrivals).cursor;
    CursorIsNewest(history, initial, arrivals);
    hide Indexer.Run, News;
    if i: nat :| i < |arrivals| && Newest(initial, arrivals, i) && now == Some(Cursor(arrivals[i].signature, arrivals[i].slot)) {
      forall j: nat | j < |arrivals| && Newest(initial, arrivals, j) ensures j == i {
        OneNewest(initial, arrivals, i, j);
      }
    }
  }

  // Not applied, and behind the place where the next pass begins.
  predicate Missed(history: seq<Tx>, initial: Option<Cursor>, arrivals: seq<Arrival>, sig: Signature) {
    PlaceOf(history, sig) < Resume(history, Indexer.Run(initial, arrivals).cursor) && sig !in Log(initial, arrivals)
  }

  lemma CursorIsInLog(initial: Option<Cursor>, arrivals: seq<Arrival>)
    ensures var now := Indexer.Run(initial, arrivals).cursor;
            now.Some? ==> now.value.signature in Log(initial, arrivals)
  {
    RecentIsLast(initial, arrivals);
  }

  lemma CursorInHistory(history: seq<Tx>, initial: Option<Cursor>, arrivals: seq<Arrival>)
    requires Confirmed(history) && PointsInto(history, initial) && AllOfHistory(history, arrivals)
    ensures PointsInto(history, Indexer.Run(initial, arrivals).cursor)
  {
    CursorIsNewest(history, initial, arrivals);
    hide Indexer.Run, Newest;
    var now := Indexer.Run(initial, arrivals).cursor;
    if i: nat :| i < |arrivals| && Newest(initial, arrivals, i) && now == Some(Cursor(arrivals[i].signature, arrivals[i].slot)) {
      assert OfHistory(history, arrivals[i]);
    }
  }

  /** Exactly what a process misses, for any arrivals at all, with failures, retries, repetitions,
      disorder and gaps: a transaction that the newest success lies after, and of which no arrival was
      on time. */
  lemma MissedIff(history: seq<Tx>, initial: Option<Cursor>, arrivals: seq<Arrival>, sig: Signature)
    requires Confirmed(history) && PointsInto(history, initial) && AllOfHistory(history, arrivals)
    ensures Missed(history, initial, arrivals, sig)
            <==> StandsAfter(history, initial, arrivals, PlaceOf(history, sig)) && !Caught(initial, arrivals, sig)
  {
    var now := Indexer.Run(initial, arrivals).cursor;
    PastIffStandsAfter(history, initial, arrivals, PlaceOf(history, sig));
    AppliedIff(initial, arrivals, sig);
    CursorIsInLog(initial, arrivals);
    CursorInHistory(history, initial, arrivals);
    hide Indexer.Run, StandsAfter, Caught, Log, PlaceOf, Confirmed, AllOfHistory;
    if now.Some? {
      SamePlaceIff(history, now.value.signature, sig);
    }
  }

  lemma InRest(list: seq<Backfill.SignatureInfo>, from: nat, to: nat, place: nat)
    requires forall i, j :: 0 <= i < j < |list| ==> list[i].signature != list[j].signature
    requires from <= to <= |list| && place < to
    ensures list[place] in list[from..to] <==> from <= place
  {
    if from <= place {
      assert list[from..to][place - from] == list[place];
    }
  }

  lemma DueIff(history: seq<Tx>, now: Option<Cursor>, node: Backfill.Node, place: nat)
    requires PointsInto(history, now) && node.history == Listed(history) && Backfill.Grows(node)
    requires Resume(history, now) <= node.tip(0) && place < node.tip(0) <= |history|
    ensures Listed(history)[place] in Backfill.Due(node, Since(now)) <==> Resume(history, now) <= place
  {
    hide Backfill.Due, PlaceOf, PointsInto, Listed, Resume, Since;
    DueIsTheRest(history, now, node);
    InRest(node.history, Resume(history, now), node.tip(0), place);
  }

  /** What "missed" means: of what is on the chain already, the next pass lists everything except what
      lies before the cursor, so a missed transaction is neither applied nor listed again. */
  lemma NextPassLists(history: seq<Tx>, initial: Option<Cursor>, arrivals: seq<Arrival>, node: Backfill.Node, place: nat)
    requires Confirmed(history) && PointsInto(history, initial) && AllOfHistory(history, arrivals)
    requires node.history == Listed(history) && Backfill.Grows(node)
    requires Resume(history, Indexer.Run(initial, arrivals).cursor) <= node.tip(0) && place < node.tip(0) <= |history|
    ensures var now := Indexer.Run(initial, arrivals).cursor;
            Listed(history)[place] in Backfill.Due(node, Since(now)) <==> Resume(history, now) <= place
    ensures Missed(history, initial, arrivals, history[place].signature)
            <==> Listed(history)[place] !in Backfill.Due(node, Since(Indexer.Run(initial, arrivals).cursor))
                 && history[place].signature !in Log(initial, arrivals)
  {
    hide Indexer.Run, Backfill.Due, Log, PointsInto, Resume, Backfill.Grows, Listed, PlaceOf;
    CursorInHistory(history, initial, arrivals);
    DueIff(history, Indexer.Run(initial, arrivals).cursor, node, place);
    PlaceIs(history, place);
  }

  // Everything between where the process started and where its next pass begins has been applied.
  predicate NothingIsMissed(history: seq<Tx>, initial: Option<Cursor>, arrivals: seq<Arrival>) {
    forall place: nat :: Resume(history, initial) <= place < |history| ==>
      !Missed(history, initial, arrivals, history[place].signature)
  }

  /** The promise of a complete backfill holds exactly when each transaction from the start on that the
      newest success lies after was caught. */
  lemma NothingIsMissedIff(history: seq<Tx>, initial: Option<Cursor>, arrivals: seq<Arrival>)
    requires Confirmed(history) && PointsInto(history, initial) && AllOfHistory(history, arrivals)
    ensures NothingIsMissed(history, initial, arrivals)
            <==> forall place: nat :: Resume(history, initial) <= place < |history| && StandsAfter(history, initial, arrivals, place) ==>
                   Caught(initial, arrivals, history[place].signature)
  {
    forall place: nat | place < |history|
      ensures Missed(history, initial, arrivals, history[place].signature)
              <==> StandsAfter(history, initial, arrivals, place) && !Caught(initial, arrivals, history[place].signature)
    {
      PlaceIs(history, place);
      MissedIff(history, initial, arrivals, history[place].signature);
    }
  }

  // The promise beside the queue: the next pass meets each failed transaction again, or another
  // arrival of it has been applied.
  predicate FailuresStayAhead(history: seq<Tx>, initial: Option<Cursor>, arrivals: seq<Arrival>) {
    forall i :: 0 <= i < |arrivals| && !arrivals[i].handled ==> !Missed(history, initial, arrivals, arrivals[i].signature)
  }

  /** The promise holds exactly when each failed transaction that the newest success lies after was
      caught in another arrival. */
  lemma FailuresStayAheadIff(history: seq<Tx>, initial: Option<Cursor>, arrivals: seq<Arrival>)
    requires Confirmed(history) && PointsInto(history, initial) && AllOfHistory(history, arrivals)
    ensures FailuresStayAhead(history, initial, arrivals)
            <==> forall i :: 0 <= i < |arrivals| && !arrivals[i].handled
                             && StandsAfter(history, initial, arrivals, PlaceOf(history, arrivals[i].signature)) ==>
                   Caught(initial, arrivals, arrivals[i].signature)
  {
    forall i | 0 <= i < |arrivals|
      ensures Missed(history, initial, arrivals, arrivals[i].signature)
              <==> StandsAfter(history, initial, arrivals, PlaceOf(history, arrivals[i].signature))
                   && !Caught(initial, arrivals, arrivals[i].signature)
    {
      MissedIff(history, initial, arrivals, arrivals[i].signature);
    }
  }

  // Within one slot, successes come in chain order.
  predicate SiblingsInOrder(history: seq<Tx>, initial: Option<Cursor>, arrivals: seq<Arrival>) {
    && (forall i, j :: 0 <= i < j < |arrivals| && arrivals[i].handled && arrivals[j].handled && arrivals[i].slot == arrivals[j].slot ==>
          PlaceOf(history, arrivals[i].signature) <= PlaceOf(history, arrivals[j].signature))
    && (initial.Some? ==> forall i :: 0 <= i < |arrivals| && arrivals[i].handled && arrivals[i].slot == initial.value.slot ==>
          PlaceOf(history, initial.value.signature) <= PlaceOf(history, arrivals[i].signature))
  }

  // Some success of the process, or its starting point, lies after this place in the chain.
  predicate SuccessAfter(history: seq<Tx>, initial: Option<Cursor>, arrivals: seq<Arrival>, place: nat) {
    || (exists i :: 0 <= i < |arrivals| && arrivals[i].handled && place < PlaceOf(history, arrivals[i].signature))
    || (initial.Some? && place < PlaceOf(history, initial.value.signature))
  }

  // The start and every success of the process lie before the place where the next pass begins.
  predicate AllBehind(history: seq<Tx>, initial: Option<Cursor>, arrivals: seq<Arrival>, now: Option<Cursor>) {
    && (initial.Some? ==> PlaceOf(history, initial.value.signature) < Resume(history, now))
    && forall i :: 0 <= i < |arrivals| && arrivals[i].handled ==> PlaceOf(history, arrivals[i].signature) < Resume(history, now)
  }

  lemma EarlierSlotIsEarlier(history: seq<Tx>, a: Signature, b: Signature)
    requires Confirmed(history) && PlaceOf(history, a) < |history| && PlaceOf(history, b) < |history|
    requires SlotIn(history)(a) < SlotIn(history)(b)
    ensures PlaceOf(history, a) < PlaceOf(history, b)
  {
    if PlaceOf(history, b) <= PlaceOf(history, a) {
      SlotsFollowPlaces(history, PlaceOf(history, b), PlaceOf(history, a));
    }
  }

  // News moves the cursor behind everything that succeeded before it.
  lemma NewsIsBehindNothing(history: seq<Tx>, initial: Option<Cursor>, arrivals: seq<Arrival>)
    requires Confirmed(history) && PointsInto(history, initial) && AllOfHistory(history, arrivals) && arrivals != []
    requires SiblingsInOrder(history, initial, arrivals) && News(initial, arrivals, |arrivals| - 1)
    ensures AllBehind(history, initial, arrivals, Some(Cursor(arrivals[|arrivals| - 1].signature, arrivals[|arrivals| - 1].slot)))
  {
    var n := |arrivals| - 1;
    var a := arrivals[n];
    assert OfHistory(history, a);
    if initial.Some? && initial.value.slot < a.slot {
      EarlierSlotIsEarlier(history, initial.value.signature, a.signature);
    }
    forall i | 0 <= i < n && arrivals[i].handled ensures PlaceOf(history, arrivals[i].signature) <= PlaceOf(history, a.signature) {
      assert OfHistory(history, arrivals[i]);
      if arrivals[i].slot < a.slot {
        EarlierSlotIsEarlier(history, arrivals[i].signature, a.signature);
      }
    }
  }

  // A success that is not news lies behind the cursor already.
  lemma OldIsBehind(history: seq<Tx>, initial: Option<Cursor>, arrivals: seq<Arrival>, now: Option<Cursor>)
    requires Confirmed(history) && PointsInto(history, initial) && AllOfHistory(history, arrivals) && arrivals != []
    requires var n := |arrivals| - 1;
             now == Indexer.Run(initial, arrivals[..n]).cursor && AllBehind(history, initial, arrivals[..n], now)
    requires arrivals[|arrivals| - 1].handled && !News(initial, arrivals, |arrivals| - 1)
    ensures PlaceOf(history, arrivals[|arrivals| - 1].signature) < Resume(history, now)
  {
    var n := |arrivals| - 1;
    var before, a := arrivals[..n], arrivals[n];
    assert OfHistory(history, a) && AllOfHistory(history, before);
    CursorInHistory(history, initial, before);
    PastIffOvertaken(initial, before, a.slot);
    OnTimeLast(initial, arrivals);
    hide Indexer.Run;
    if OnTime(initial, arrivals, n) {
      if j :| 0 <= j < n && arrivals[j].signature == a.signature && arrivals[j].handled {
        assert before[j] == arrivals[j];
      }
    } else {
      EarlierSlotIsEarlier(history, a.signature, now.value.signature);
    }
  }

  lemma AllBehindMore(history: seq<Tx>, initial: Option<Cursor>, arrivals: seq<Arrival>, a: Arrival, now: Option<Cursor>)
    requires AllBehind(history, initial, arrivals, now)
    requires a.handled ==> PlaceOf(history, a.signature) < Resume(history, now)
    ensures AllBehind(history, initial, arrivals + [a], now)
  {
  }

  lemma NothingBehind(history: seq<Tx>, initial: Option<Cursor>)
    ensures AllBehind(history, initial, [], Indexer.Run(initial, []).cursor)
  {
  }

  lemma OrderBefore(history: seq<Tx>, initial: Option<Cursor>, arrivals: seq<Arrival>, a: Arrival)
    requires SiblingsInOrder(history, initial, arrivals + [a]) && AllOfHistory(history, arrivals + [a])
    ensures SiblingsInOrder(history, initial, arrivals) && AllOfHistory(history, arrivals)
  {
    assert forall i :: 0 <= i < |arrivals| ==> (arrivals + [a])[i] == arrivals[i];
  }

  lemma AllBehindStep(history: seq<Tx>, initial: Option<Cursor>, arrivals: seq<Arrival>, a: Arrival, all: seq<Arrival>)
    requires Confirmed(history) && PointsInto(history, initial) && all == arrivals + [a] && AllOfHistory(history, all)
    requires SiblingsInOrder(history, initial, all)
    requires AllBehind(history, initial, arrivals, Indexer.Run(initial, arrivals).cursor)
    ensures AllBehind(history, initial, all, Indexer.Run(initial, all).cursor)
  {
    hide AppliedOf, Indexer.Run, News, AllOfHistory, PointsInto, AllBehind, SiblingsInOrder, Confirmed;
    assert all[..|all| - 1] == arrivals && all[|all| - 1] == a;
    NewsIsApplied(history, initial, all);
    OneMore(initial, arrivals, a);
    if News(initial, all, |all| - 1) {
      NewsIsBehindNothing(history, initial, all);
    } else {
      if a.handled {
        OldIsBehind(history, initial, all, Indexer.Run(initial, arrivals).cursor);
      }
      AllBehindMore(history, initial, arrivals, a, Indexer.Run(initial, arrivals).cursor);
    }
  }

  lemma {:induction false} SuccessesAreBehind(history: seq<Tx>, initial: Option<Cursor>, arrivals: seq<Arrival>)
    requires Confirmed(history) && PointsInto(history, initial) && AllOfHistory(history, arrivals)
    requires SiblingsInOrder(history, initial, arrivals)
    ensures AllBehind(history, initial, arrivals, Indexer.Run(initial, arrivals).cursor)
    decreases |arrivals|
  {
    hide *;
    if arrivals != [] {
      var before, a := arrivals[..|arrivals| - 1], arrivals[|arrivals| - 1];
      assert arrivals == before + [a];
      OrderBefore(history, initial, before, a);
      SuccessesAreBehind(history, initial, before);
      AllBehindStep(history, initial, before, a, arrivals);
    } else {
      NothingBehind(history, initial);
    }
  }

  /** Where the successes of each slot come in chain order, as from a pass, the newest success lies after
      a place exactly when some success does. So there a failure stays ahead exactly when it was caught
      or nothing after it in the chain has succeeded. */
  lemma InOrderStandsAfter(history: seq<Tx>, initial: Option<Cursor>, arrivals: seq<Arrival>, place: nat)
    requires Confirmed(history) && PointsInto(history, initial) && AllOfHistory(history, arrivals)
    requires SiblingsInOrder(history, initial, arrivals)
    ensures StandsAfter(history, initial, arrivals, place) <==> SuccessAfter(history, initial, arrivals, place)
  {
    SuccessesAreBehind(history, initial, arrivals);
    PastIffStandsAfter(history, initial, arrivals, place);
    hide Indexer.Run, PointsInto;
  }

  // In the sample, arrival `i` of a run is the newest success.
  lemma NewestInSample(places: seq<nat>, handled: seq<bool>, i: nat)
    requires |places| == |handled| && forall k :: 0 <= k < |places| ==> places[k] < |FIVE|
    requires i < |places| && Newest(None, Hear(places, handled), i)
    ensures forall place: nat :: StandsAfter(FIVE, None, Hear(places, handled), place) <==> place < places[i]
  {
    HearIsOfHistory(places, handled);
    forall j: nat | j < |places| && Newest(None, Hear(places, handled), j) ensures j == i {
      OneNewest(None, Hear(places, handled), i, j);
    }
  }

  lemma MissedInSample(places: seq<nat>, handled: seq<bool>, i: nat, place: nat)
    requires |places| == |handled| && forall k :: 0 <= k < |places| ==> places[k] < |FIVE|
    requires i < |places| && Newest(None, Hear(places, handled), i) && place < |FIVE|
    ensures Missed(FIVE, None, Hear(places, handled), FIVE[place].signature)
            <==> place < places[i] && !Caught(None, Hear(places, handled), FIVE[place].signature)
  {
    FiveAreConfirmed();
    HearIsOfHistory(places, handled);
    PlaceIs(FIVE, place);
    NewestInSample(places, handled, i);
    MissedIff(FIVE, None, Hear(places, handled), FIVE[place].signature);
  }

  /** A failure, a success from a later slot, and the failed one again: the failure is missed. */
  lemma FailureIsMissed()
    ensures var run := Hear([0, 1, 4, 1], [true, false, true, true]);
            !FailuresStayAhead(FIVE, None, run) && Missed(FIVE, None, run, "b")
  {
    hide Indexer.Run, Log, Missed;
    var run := Hear([0, 1, 4, 1], [true, false, true, true]);
    FiveAreDistinct();
    assert run[2].handled && run[2].slot == 3 && run[3].slot == 2;
    assert Newest(None, run, 2);
    MissedInSample([0, 1, 4, 1], [true, false, true, true], 2, 1);
    assert run[1].signature == "b" && !run[1].handled;
  }

  /** A failure and a success of a later sibling in the same slot: the next pass begins behind the
      sibling, and no pass lists the failure again. */
  lemma SiblingIsMissed()
    ensures var run := Hear([0, 1, 2], [true, false, true]);
            !FailuresStayAhead(FIVE, None, run) && Missed(FIVE, None, run, "b")
  {
    hide Indexer.Run, Log, Missed;
    var run := Hear([0, 1, 2], [true, false, true]);
    FiveAreDistinct();
    assert Newest(None, run, 2);
    MissedInSample([0, 1, 2], [true, false, true], 2, 1);
    assert run[1].signature == "b" && !run[1].handled;
  }

  /** No failure at all: a transaction heard after one of a later slot is missed. */
  lemma LatecomerIsMissed()
    ensures var run := Hear([0, 4, 1], [true, true, true]);
            FailuresStayAhead(FIVE, None, run) && Missed(FIVE, None, run, "b")
  {
    hide Indexer.Run, Log, Missed;
    var run := Hear([0, 4, 1], [true, true, true]);
    FiveAreDistinct();
    assert run[1].handled && run[1].slot == 3 && run[2].slot == 2;
    assert Newest(None, run, 1);
    MissedInSample([0, 4, 1], [true, true, true], 1, 1);
  }

  /** A transaction that was not heard before a later sibling is missed as well. */
  lemma UnheardSiblingIsMissed()
    ensures var run := Hear([0, 2], [true, true]);
            FailuresStayAhead(FIVE, None, run) && Missed(FIVE, None, run, "b")
  {
    hide Indexer.Run, Log, Missed;
    var run := Hear([0, 2], [true, true]);
    FiveAreDistinct();
    assert Newest(None, run, 1);
    MissedInSample([0, 2], [true, true], 1, 1);
  }

  lemma OnlyFailureAhead(history: seq<Tx>, initial: Option<Cursor>, arrivals: seq<Arrival>, i: nat)
    requires i < |arrivals| && !Missed(history, initial, arrivals, arrivals[i].signature)
    requires forall j :: 0 <= j < |arrivals| && !arrivals[j].handled ==> j == i
    ensures FailuresStayAhead(history, initial, arrivals)
  {
  }

  // A run in the sample whose siblings come in the order c, d, b, with c failing.
  lemma LastIsNewest()
    ensures Newest(None, Hear([0, 2, 3, 1], [true, false, true, true]), 3)
  {
    FiveAreDistinct();
  }

  lemma DAfterC(run: seq<Arrival>)
    requires |run| == 4 && run[2] == Heard(3, true)
    ensures SuccessAfter(FIVE, None, run, 2)
  {
    HeardIsOfHistory(3, true);
    hide PlaceOf;
    assert run[2].handled;
  }

  /** Why the newest success counts, and not the furthest: a sibling heard late takes the cursor back
      within its slot, and the next pass meets the failure although a success lies after it. */
  lemma CursorFallsBackWithinSlot()
    ensures var run := Hear([0, 2, 3, 1], [true, false, true, true]);
            && SuccessAfter(FIVE, None, run, 2) && !Missed(FIVE, None, run, "c")
            && FailuresStayAhead(FIVE, None, run)
  {
    hide Indexer.Run, Log, Missed, Newest, SuccessAfter, Caught, FailuresStayAhead;
    var run := Hear([0, 2, 3, 1], [true, false, true, true]);
    assert run[1] == Heard(2, false) && run[1].signature == "c";
    assert forall j :: 0 <= j < |run| && !run[j].handled ==> j == 1;
    LastIsNewest();
    DAfterC(run);
    MissedInSample([0, 2, 3, 1], [true, false, true, true], 3, 2);
    hide Hear;
    OnlyFailureAhead(FIVE, None, run, 1);
  }
}
