/** One life of the worker: it resumes from the stored cursor and is fed by backfill passes and the
    subscription, with handlers and cursor saves that may fail at any point. */
module Feeding {
  import opened Common
  import opened Runs
  import opened Ledger
  import opened Indexer
  import opened History

  predicate IsNext(history: seq<Tx>, cursor: Option<Cursor>, sig: Signature) {
    var n := Resume(history, cursor);
    n < |history| && history[n].signature == sig
  }

  // What may arrive after `before` without opening a gap: anything the handler rejects, anything late,
  // any repetition, and the transaction right after the cursor.
  predicate Welcome(history: seq<Tx>, cursor: Option<Cursor>, before: seq<Arrival>, a: Arrival) {
    var now := Indexer.Run(cursor, before).cursor;
    || !a.handled
    || (now.Some? && a.slot < now.value.slot)
    || a.signature in Log(cursor, before)
    || IsNext(history, now, a.signature)
  }

  // What a life is fed, by backfill passes and the subscription in any interleaving.
  predicate Feeds(history: seq<Tx>, cursor: Option<Cursor>, arrivals: seq<Arrival>) {
    arrivals == [] || (var before, a := arrivals[..|arrivals| - 1], arrivals[|arrivals| - 1];
                       Feeds(history, cursor, before) && OfHistory(history, a) && Welcome(history, cursor, before, a))
  }

  // These signatures are those of the history from `from` on.
  predicate Continues(history: seq<Tx>, from: nat, sigs: seq<Signature>) {
    from + |sigs| <= |history| && forall j :: 0 <= j < |sigs| ==> sigs[j] == history[from + j].signature
  }

  // What the life applies is the history onwards from its cursor, without a gap.
  predicate AppliesOnwards(history: seq<Tx>, cursor: Option<Cursor>, arrivals: seq<Arrival>) {
    Continues(history, Resume(history, cursor), AppliedOf(cursor, arrivals))
  }

  lemma {:induction false} FedIsOfHistory(history: seq<Tx>, cursor: Option<Cursor>, arrivals: seq<Arrival>)
    requires Feeds(history, cursor, arrivals)
    ensures AllOfHistory(history, arrivals)
    decreases |arrivals|
  {
    if arrivals != [] {
      FedIsOfHistory(history, cursor, arrivals[..|arrivals| - 1]);
      assert forall i :: 0 <= i < |arrivals| - 1 ==> arrivals[i] == arrivals[..|arrivals| - 1][i];
    }
  }

  lemma LogPlaces(history: seq<Tx>, cursor: Option<Cursor>, arrivals: seq<Arrival>, sig: Signature)
    requires DistinctSignatures(history) && PointsInto(history, cursor)
    requires AppliesOnwards(history, cursor, arrivals)
    requires sig in Log(cursor, arrivals)
    ensures PlaceOf(history, sig) < Resume(history, cursor) + |AppliedOf(cursor, arrivals)|
  {
    var applied := AppliedOf(cursor, arrivals);
    if sig in applied {
      var j :| 0 <= j < |applied| && applied[j] == sig;
      PlaceIs(history, Resume(history, cursor) + j);
    }
  }

  // Where the cursor stands once a life has continued the history.
  lemma CursorFollows(history: seq<Tx>, cursor: Option<Cursor>, arrivals: seq<Arrival>)
    requires Confirmed(history) && PointsInto(history, cursor) && AllOfHistory(history, arrivals)
    requires AppliesOnwards(history, cursor, arrivals)
    ensures PointsInto(history, Indexer.Run(cursor, arrivals).cursor)
    ensures Resume(history, Indexer.Run(cursor, arrivals).cursor) == Resume(history, cursor) + |AppliedOf(cursor, arrivals)|
  {
    var applied := AppliedOf(cursor, arrivals);
    HistoryIsChain(history, cursor, arrivals);
    LogStaysOnChain(SlotIn(history), Signatures(history), cursor, arrivals);
    RecentIsLast(cursor, arrivals);
    if applied != [] {
      PlaceIs(history, Resume(history, cursor) + |applied| - 1);
    }
  }

  // The next transaction is neither late nor a repetition.
  lemma NextIsNew(history: seq<Tx>, cursor: Option<Cursor>, arrivals: seq<Arrival>, a: Arrival)
    requires Confirmed(history) && PointsInto(history, cursor) && AllOfHistory(history, arrivals) && OfHistory(history, a)
    requires AppliesOnwards(history, cursor, arrivals)
    requires IsNext(history, Indexer.Run(cursor, arrivals).cursor, a.signature)
    ensures var now := Indexer.Run(cursor, arrivals).cursor;
            !(now.Some? && a.slot < now.value.slot) && a.signature !in Log(cursor, arrivals)
  {
    var now := Indexer.Run(cursor, arrivals).cursor;
    var n := Resume(history, now);
    CursorFollows(history, cursor, arrivals);
    PlaceIs(history, n);
    if now.Some? {
      SlotsFollowPlaces(history, n - 1, n);
    }
    if a.signature in Log(cursor, arrivals) {
      LogPlaces(history, cursor, arrivals, a.signature);
    }
  }

  // A welcome arrival is applied exactly when it is the next one and its handler succeeds.
  lemma WelcomeIsApplied(history: seq<Tx>, cursor: Option<Cursor>, arrivals: seq<Arrival>, a: Arrival)
    requires Confirmed(history) && PointsInto(history, cursor) && AllOfHistory(history, arrivals) && OfHistory(history, a)
    requires AppliesOnwards(history, cursor, arrivals)
    requires Welcome(history, cursor, arrivals, a)
    ensures var s := Indexer.Run(cursor, arrivals);
            Process(s, a).1.Applied? <==> a.handled && IsNext(history, s.cursor, a.signature)
  {
    AppliedWhen(history, cursor, arrivals, a);
    if IsNext(history, Indexer.Run(cursor, arrivals).cursor, a.signature) {
      NextIsNew(history, cursor, arrivals, a);
    }
  }

  lemma ContinuesMore(history: seq<Tx>, from: nat, sigs: seq<Signature>, sig: Signature)
    ensures Continues(history, from, sigs + [sig])
            <==> Continues(history, from, sigs) && from + |sigs| < |history| && history[from + |sigs|].signature == sig
  {
    var all := sigs + [sig];
    if Continues(history, from, all) {
      assert all[|sigs|] == sig;
      assert forall j :: 0 <= j < |sigs| ==> sigs[j] == all[j];
    }
  }

  lemma WelcomeIff(history: seq<Tx>, cursor: Option<Cursor>, arrivals: seq<Arrival>, a: Arrival)
    requires Confirmed(history) && PointsInto(history, cursor) && AllOfHistory(history, arrivals) && OfHistory(history, a)
    requires AppliesOnwards(history, cursor, arrivals)
    ensures var s := Indexer.Run(cursor, arrivals);
            Welcome(history, cursor, arrivals, a) <==> (Process(s, a).1.Applied? ==> IsNext(history, s.cursor, a.signature))
  {
    AppliedWhen(history, cursor, arrivals, a);
    if Welcome(history, cursor, arrivals, a) {
      WelcomeIsApplied(history, cursor, arrivals, a);
    }
  }

  lemma ContinuesIf(history: seq<Tx>, from: nat, sigs: seq<Signature>, sig: Signature, more: bool)
    ensures Continues(history, from, if more then sigs + [sig] else sigs)
            <==> Continues(history, from, sigs)
                 && (more ==> from + |sigs| < |history| && history[from + |sigs|].signature == sig)
  {
    ContinuesMore(history, from, sigs, sig);
  }

  // One more arrival goes on where the life stood, if it is applied at all.
  lemma OneMoreOnwards(history: seq<Tx>, cursor: Option<Cursor>, arrivals: seq<Arrival>, a: Arrival)
    ensures var from, applied := Resume(history, cursor), AppliedOf(cursor, arrivals);
            AppliesOnwards(history, cursor, arrivals + [a])
            <==> AppliesOnwards(history, cursor, arrivals)
                 && (Process(Indexer.Run(cursor, arrivals), a).1.Applied? ==>
                       from + |applied| < |history| && history[from + |applied|].signature == a.signature)
  {
    hide AppliedOf, Indexer.Run, Process, Resume, Continues;
    OneMore(cursor, arrivals, a);
    ContinuesIf(history, Resume(history, cursor), AppliedOf(cursor, arrivals), a.signature,
                Process(Indexer.Run(cursor, arrivals), a).1.Applied?);
  }

  // One more arrival continues the history exactly when it is welcome.
  lemma WelcomeContinues(history: seq<Tx>, cursor: Option<Cursor>, arrivals: seq<Arrival>, a: Arrival)
    requires Confirmed(history) && PointsInto(history, cursor) && AllOfHistory(history, arrivals) && OfHistory(history, a)
    requires AppliesOnwards(history, cursor, arrivals)
    ensures AppliesOnwards(history, cursor, arrivals + [a]) <==> Welcome(history, cursor, arrivals, a)
  {
    hide AppliedOf, Indexer.Run, Process, Log;
    CursorFollows(history, cursor, arrivals);
    WelcomeIff(history, cursor, arrivals, a);
    OneMoreOnwards(history, cursor, arrivals, a);
  }

  lemma FeedsMore(history: seq<Tx>, cursor: Option<Cursor>, arrivals: seq<Arrival>, a: Arrival)
    ensures Feeds(history, cursor, arrivals + [a])
            <==> Feeds(history, cursor, arrivals) && OfHistory(history, a) && Welcome(history, cursor, arrivals, a)
  {
    var all := arrivals + [a];
    assert all[..|all| - 1] == arrivals;
  }

  lemma NothingContinues(history: seq<Tx>, cursor: Option<Cursor>)
    requires PointsInto(history, cursor)
    ensures Feeds(history, cursor, []) && AppliesOnwards(history, cursor, [])
  {
  }

  /** A life applies the history onwards from its cursor, in order and without a gap, exactly when each
      arrival was welcome: whatever failed, came late or came twice. */
  lemma {:induction false} LifeAppliesIff(history: seq<Tx>, cursor: Option<Cursor>, arrivals: seq<Arrival>)
    requires Confirmed(history) && PointsInto(history, cursor) && AllOfHistory(history, arrivals)
    ensures AppliesOnwards(history, cursor, arrivals) <==> Feeds(history, cursor, arrivals)
    decreases |arrivals|
  {
    if arrivals != [] {
      var before, a := arrivals[..|arrivals| - 1], arrivals[|arrivals| - 1];
      assert before + [a] == arrivals;
      assert forall i :: 0 <= i < |before| ==> before[i] == arrivals[i];
      LifeAppliesIff(history, cursor, before);
      FeedsMore(history, cursor, before, a);
      if AppliesOnwards(history, cursor, before) {
        WelcomeContinues(history, cursor, before, a);
      } else {
        OneMoreOnwards(history, cursor, before, a);
      }
    } else {
      assert arrivals == [];
      NothingContinues(history, cursor);
    }
  }

  // What a fed life has done, and where its cursor stands.
  lemma FedLife(history: seq<Tx>, cursor: Option<Cursor>, arrivals: seq<Arrival>)
    requires Confirmed(history) && PointsInto(history, cursor) && Feeds(history, cursor, arrivals)
    ensures AllOfHistory(history, arrivals)
    ensures AppliesOnwards(history, cursor, arrivals)
    ensures PointsInto(history, Indexer.Run(cursor, arrivals).cursor)
    ensures Resume(history, Indexer.Run(cursor, arrivals).cursor) == Resume(history, cursor) + |AppliedOf(cursor, arrivals)|
  {
    FedIsOfHistory(history, cursor, arrivals);
    LifeAppliesIff(history, cursor, arrivals);
    CursorFollows(history, cursor, arrivals);
  }

  // What the store holds was there at the start or has been applied.
  predicate StoresApplied(initial: Option<Cursor>, arrivals: seq<Arrival>) {
    var stored := Indexer.Run(initial, arrivals).stored;
    stored == initial || (stored.Some? && stored.value.signature in AppliedOf(initial, arrivals))
  }

  lemma StoresAppliedMore(initial: Option<Cursor>, arrivals: seq<Arrival>, a: Arrival)
    requires StoresApplied(initial, arrivals)
    ensures StoresApplied(initial, arrivals + [a])
  {
    hide AppliedOf, Indexer.Run;
    OneMore(initial, arrivals, a);
  }

  lemma {:induction false} StoredIsApplied(initial: Option<Cursor>, arrivals: seq<Arrival>)
    ensures StoresApplied(initial, arrivals)
    decreases |arrivals|
  {
    if arrivals != [] {
      var before, a := arrivals[..|arrivals| - 1], arrivals[|arrivals| - 1];
      StoredIsApplied(initial, before);
      StoresAppliedMore(initial, before, a);
      assert before + [a] == arrivals;
    }
  }

  lemma {:induction false} StoredStaysOnChain(slotOf: Signature -> int, chain: set<Signature>, initial: Option<Cursor>,
                                              arrivals: seq<Arrival>)
    requires OnChain(slotOf, chain, initial, arrivals)
    ensures var stored := Indexer.Run(initial, arrivals).stored;
            stored.Some? ==> slotOf(stored.value.signature) == stored.value.slot
    decreases |arrivals|
  {
    if arrivals != [] {
      StoredStaysOnChain(slotOf, chain, initial, arrivals[..|arrivals| - 1]);
    }
  }

  /** Whatever was saved, the next life resumes no later than where this one stopped. */
  lemma ResumesWithin(history: seq<Tx>, cursor: Option<Cursor>, arrivals: seq<Arrival>)
    requires Confirmed(history) && PointsInto(history, cursor) && Feeds(history, cursor, arrivals)
    ensures var stored := Indexer.Run(cursor, arrivals).stored;
            && PointsInto(history, stored)
            && Resume(history, stored) <= Resume(history, cursor) + |AppliedOf(cursor, arrivals)|
  {
    var stored := Indexer.Run(cursor, arrivals).stored;
    FedLife(history, cursor, arrivals);
    StoredIsApplied(cursor, arrivals);
    HistoryIsChain(history, cursor, arrivals);
    StoredStaysOnChain(SlotIn(history), Signatures(history), cursor, arrivals);
    if stored != cursor {
      LogPlaces(history, cursor, arrivals, stored.value.signature);
    }
  }

  // What a welcome arrival adds to what was applied, and where it leaves the cursor.
  function Added(history: seq<Tx>, now: Option<Cursor>, a: Arrival): seq<Signature> {
    if a.handled && IsNext(history, now, a.signature) then [a.signature] else []
  }

  function Moved(history: seq<Tx>, now: Option<Cursor>, a: Arrival): Option<Cursor> {
    if a.handled && IsNext(history, now, a.signature) then Some(Cursor(a.signature, a.slot)) else now
  }

  lemma FedStep(history: seq<Tx>, cursor: Option<Cursor>, arrivals: seq<Arrival>, a: Arrival)
    requires Confirmed(history) && PointsInto(history, cursor) && Feeds(history, cursor, arrivals)
    requires OfHistory(history, a) && Welcome(history, cursor, arrivals, a)
    ensures Feeds(history, cursor, arrivals + [a])
    ensures var now := Indexer.Run(cursor, arrivals).cursor;
            && AppliedOf(cursor, arrivals + [a]) == AppliedOf(cursor, arrivals) + Added(history, now, a)
            && Indexer.Run(cursor, arrivals + [a]).cursor == Moved(history, now, a)
  {
    hide AppliedOf, Indexer.Run, Feeds, Log;
    FedLife(history, cursor, arrivals);
    WelcomeIsApplied(history, cursor, arrivals, a);
    OneMore(cursor, arrivals, a);
    FeedsMore(history, cursor, arrivals, a);
  }

  lemma Together<T>(a: seq<T>, b: seq<T>, c: seq<T>)
    ensures (a + b) + c == a + (b + c)
  {
  }

  lemma CursorIsLogged(cursor: Option<Cursor>, first: seq<Arrival>, sig: Signature)
    requires Indexer.Run(cursor, first).cursor.Some? && Indexer.Run(cursor, first).cursor.value.signature == sig
    ensures sig in Log(cursor, first)
  {
    RecentIsLast(cursor, first);
  }

  // A life that goes on from its cursor in memory, seen as one life.
  predicate Joined(cursor: Option<Cursor>, first: seq<Arrival>, more: seq<Arrival>) {
    var mid := Indexer.Run(cursor, first).cursor;
    && AppliedOf(cursor, first + more) == AppliedOf(cursor, first) + AppliedOf(mid, more)
    && Indexer.Run(cursor, first + more).cursor == Indexer.Run(mid, more).cursor
  }

  lemma JoinedNothing(cursor: Option<Cursor>, first: seq<Arrival>)
    ensures first + [] == first && Joined(cursor, first, [])
  {
    assert AppliedOf(cursor, first) + [] == AppliedOf(cursor, first);
  }

  lemma JoinedMore(history: seq<Tx>, cursor: Option<Cursor>, first: seq<Arrival>, more: seq<Arrival>, a: Arrival)
    requires Confirmed(history) && PointsInto(history, cursor) && OfHistory(history, a)
    requires Feeds(history, cursor, first + more) && Joined(cursor, first, more)
    requires PointsInto(history, Indexer.Run(cursor, first).cursor) && Feeds(history, Indexer.Run(cursor, first).cursor, more)
    requires Welcome(history, Indexer.Run(cursor, first).cursor, more, a) && Welcome(history, cursor, first + more, a)
    ensures Feeds(history, cursor, first + (more + [a])) && Joined(cursor, first, more + [a])
  {
    hide AppliedOf, Indexer.Run, Feeds, Welcome, PointsInto;
    var mid := Indexer.Run(cursor, first).cursor;
    FedStep(history, cursor, first + more, a);
    FedStep(history, mid, more, a);
    Together(first, more, [a]);
    Together(AppliedOf(cursor, first), AppliedOf(mid, more), Added(history, Indexer.Run(mid, more).cursor, a));
  }

  // What is welcome to the life that starts at the cursor in memory is welcome to the whole life.
  lemma StillWelcome(history: seq<Tx>, cursor: Option<Cursor>, first: seq<Arrival>, more: seq<Arrival>, a: Arrival)
    requires Joined(cursor, first, more) && Welcome(history, Indexer.Run(cursor, first).cursor, more, a)
    ensures Welcome(history, cursor, first + more, a)
  {
    var mid := Indexer.Run(cursor, first).cursor;
    if mid.Some? {
      CursorIsLogged(cursor, first, mid.value.signature);
    }
  }

  lemma FedMid(history: seq<Tx>, cursor: Option<Cursor>, arrivals: seq<Arrival>)
    requires Confirmed(history) && PointsInto(history, cursor) && Feeds(history, cursor, arrivals)
    ensures PointsInto(history, Indexer.Run(cursor, arrivals).cursor)
  {
    FedLife(history, cursor, arrivals);
  }

  lemma LastIsWelcome(history: seq<Tx>, cursor: Option<Cursor>, arrivals: seq<Arrival>, a: Arrival)
    requires Feeds(history, cursor, arrivals + [a])
    ensures Feeds(history, cursor, arrivals) && OfHistory(history, a) && Welcome(history, cursor, arrivals, a)
  {
    FeedsMore(history, cursor, arrivals, a);
  }

  /** A process may be fed in stages: what continues from its cursor in memory continues the life. */
  lemma {:induction false} FeedsThen(history: seq<Tx>, cursor: Option<Cursor>, first: seq<Arrival>, more: seq<Arrival>)
    requires Confirmed(history) && PointsInto(history, cursor) && Feeds(history, cursor, first)
    requires Feeds(history, Indexer.Run(cursor, first).cursor, more)
    ensures Feeds(history, cursor, first + more) && Joined(cursor, first, more)
    decreases |more|
  {
    hide *;
    if more == [] {
      JoinedNothing(cursor, first);
    } else {
      var init, a := more[..|more| - 1], more[|more| - 1];
      assert more == init + [a];
      LastIsWelcome(history, Indexer.Run(cursor, first).cursor, init, a);
      FeedsThen(history, cursor, first, init);
      FedMid(history, cursor, first);
      StillWelcome(history, cursor, first, init, a);
      JoinedMore(history, cursor, first, init, a);
    }
  }

  lemma ContinuedHolds(history: seq<Tx>, from: nat, sigs: seq<Signature>, i: nat)
    requires Continues(history, from, sigs) && i < |sigs|
    ensures history[from + i].signature in sigs
  {
    assert sigs[i] in sigs;
  }

  // Where a fed life stands after what it was fed; it lies in the history, behind where it started.
  lemma StandsFrom(history: seq<Tx>, cursor: Option<Cursor>, before: seq<Arrival>)
    requires Confirmed(history) && PointsInto(history, cursor) && Feeds(history, cursor, before)
    ensures Resume(history, cursor) <= Resume(history, Indexer.Run(cursor, before).cursor) <= |history|
    ensures PointsInto(history, Indexer.Run(cursor, before).cursor)
  {
    FedLife(history, cursor, before);
  }

  // What has been applied onwards from a place are the signatures of the places after it.
  lemma ContinuedIff(history: seq<Tx>, from: nat, sigs: seq<Signature>, sig: Signature)
    requires DistinctSignatures(history) && Continues(history, from, sigs) && PlaceOf(history, sig) < |history|
    ensures sig in sigs <==> from <= PlaceOf(history, sig) < from + |sigs|
  {
    if j :| 0 <= j < |sigs| && sigs[j] == sig {
      PlaceIs(history, from + j);
    }
    if from <= PlaceOf(history, sig) < from + |sigs| {
      ContinuedHolds(history, from, sigs, PlaceOf(history, sig) - from);
    }
  }

  // Which transactions a fed life knows again: its starting point and what it has applied since.
  lemma KnownPlaces(history: seq<Tx>, cursor: Option<Cursor>, before: seq<Arrival>, sig: Signature)
    requires Confirmed(history) && PointsInto(history, cursor) && Feeds(history, cursor, before) && PlaceOf(history, sig) < |history|
    ensures sig in Log(cursor, before)
            <==> Resume(history, cursor) <= PlaceOf(history, sig) + 1 && PlaceOf(history, sig) < Resume(history, Indexer.Run(cursor, before).cursor)
                 && (PlaceOf(history, sig) < Resume(history, cursor) ==> cursor.Some?)
  {
    hide AppliedOf, Indexer.Run, Feeds, Continues, PlaceOf;
    FedLife(history, cursor, before);
    ContinuedIff(history, Resume(history, cursor), AppliedOf(cursor, before), sig);
    if cursor.Some? {
      SamePlaceIff(history, sig, cursor.value.signature);
    }
  }

  /** Welcome, by places in the chain. Of what the process has started behind: anything up to the next
      transaction. Of what lies before its start: only what a later slot shuts out, and the starting
      point itself; any other transaction in the cursor's slot would be applied once more. */
  predicate WelcomeAt(history: seq<Tx>, cursor: Option<Cursor>, now: Option<Cursor>, a: Arrival) {
    || !a.handled
    || (if Resume(history, cursor) <= PlaceOf(history, a.signature) then PlaceOf(history, a.signature) <= Resume(history, now)
        else (now.Some? && a.slot < now.value.slot) || (cursor.Some? && a.signature == cursor.value.signature))
  }

  lemma LateOrKnown(history: seq<Tx>, now: Option<Cursor>, a: Arrival)
    requires Confirmed(history) && PointsInto(history, now) && OfHistory(history, a)
    requires now.Some? && a.slot < now.value.slot
    ensures PlaceOf(history, a.signature) < Resume(history, now)
  {
    if PlaceOf(history, now.value.signature) <= PlaceOf(history, a.signature) {
      SlotsFollowPlaces(history, PlaceOf(history, now.value.signature), PlaceOf(history, a.signature));
    }
  }

  lemma NextByPlace(history: seq<Tx>, now: Option<Cursor>, sig: Signature)
    requires DistinctSignatures(history) && PlaceOf(history, sig) < |history|
    ensures IsNext(history, now, sig) <==> PlaceOf(history, sig) == Resume(history, now)
  {
    if IsNext(history, now, sig) {
      PlaceIs(history, Resume(history, now));
    }
  }

  lemma WelcomeIffPlace(history: seq<Tx>, cursor: Option<Cursor>, before: seq<Arrival>, a: Arrival)
    requires Confirmed(history) && PointsInto(history, cursor) && Feeds(history, cursor, before) && OfHistory(history, a)
    ensures Welcome(history, cursor, before, a)
            <==> WelcomeAt(history, cursor, Indexer.Run(cursor, before).cursor, a)
  {
    hide Indexer.Run, Feeds, Log;
    var now := Indexer.Run(cursor, before).cursor;
    StandsFrom(history, cursor, before);
    KnownPlaces(history, cursor, before, a.signature);
    NextByPlace(history, now, a.signature);
    if now.Some? && a.slot < now.value.slot {
      LateOrKnown(history, now, a);
    }
    if cursor.Some? && PlaceOf(history, a.signature) + 1 == Resume(history, cursor) {
      assert a.signature == cursor.value.signature;
    }
  }
}
