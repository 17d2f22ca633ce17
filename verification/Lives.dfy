/** The whole worker, over any number of lives: each resumes from the cursor the one before it left in
    the store, and may end at any point. */
module Lives {
  import opened Common
  import opened Runs
  import opened Refinement
  import opened Walks
  import opened Receipts
  import opened Recovery
  import opened Indexer
  import opened History
  import opened Feeding
  import Backfill
  import Passes

  /** One life. `kept` says which handlers throw although their database transaction was committed, as
      when the connection breaks behind it: the rows are written and the cursor stays. */
  datatype Life = Life(arrivals: seq<Arrival>, kept: nat -> bool)

  // Arrival `i` is committed to the database.
  predicate Commits(cursor: Option<Cursor>, life: Life, i: nat)
    requires i < |life.arrivals|
  {
    var fate := Fate(cursor, life.arrivals, i);
    fate.Applied? || (fate.Failed? && life.kept(i))
  }

  // What the first `n` arrivals of a life have committed, in order.
  function CommittedOf(cursor: Option<Cursor>, life: Life, n: nat): seq<Signature>
    requires n <= |life.arrivals|
  {
    if n == 0 then []
    else CommittedOf(cursor, life, n - 1) + if Commits(cursor, life, n - 1) then [life.arrivals[n - 1].signature] else []
  }

  // The life is fed properly, and what it commits without noticing is the next transaction.
  predicate WellFed(history: seq<Tx>, cursor: Option<Cursor>, life: Life) {
    && Feeds(history, cursor, life.arrivals)
    && forall i: nat :: i < |life.arrivals| && Fate(cursor, life.arrivals, i).Failed? && life.kept(i) ==>
         IsNext(history, Indexer.Run(cursor, life.arrivals[..i]).cursor, life.arrivals[i].signature)
  }

  // The cursor in the store after a number of lives.
  function StoredAfter(lives: seq<Life>): Option<Cursor> {
    if lives == [] then None
    else Indexer.Run(StoredAfter(lives[..|lives| - 1]), lives[|lives| - 1].arrivals).stored
  }

  predicate AllFed(history: seq<Tx>, lives: seq<Life>) {
    lives == [] || (var init := lives[..|lives| - 1];
                    AllFed(history, init) && WellFed(history, StoredAfter(init), lives[|lives| - 1]))
  }

  // Everything committed to the database, over all lives.
  function CommittedByAll(lives: seq<Life>): seq<Signature> {
    if lives == [] then []
    else
      var init, life := lives[..|lives| - 1], lives[|lives| - 1];
      CommittedByAll(init) + CommittedOf(StoredAfter(init), life, |life.arrivals|)
  }

  // The positions in the history of what was committed.
  function PlacesOf(history: seq<Tx>, sigs: seq<Signature>): seq<nat> {
    seq(|sigs|, t requires 0 <= t < |sigs| => PlaceOf(history, sigs[t]))
  }

  // The walk of all lives so far, with the first `n` arrivals of the present one.
  ghost predicate Walked(history: seq<Tx>, before: seq<Signature>, cursor: Option<Cursor>, life: Life, n: nat)
    requires n <= |life.arrivals|
  {
    var positions := PlacesOf(history, before + CommittedOf(cursor, life, n));
    && Walk(positions, |history|)
    && Resume(history, Indexer.Run(cursor, life.arrivals[..n]).cursor) <= Reached(positions)
  }

  lemma PlacesMore(history: seq<Tx>, sigs: seq<Signature>, sig: Signature)
    ensures PlacesOf(history, sigs + [sig]) == PlacesOf(history, sigs) + Range(PlaceOf(history, sig), 1)
  {
  }

  // What one more arrival commits is the next transaction, and the cursor moves behind it or stays.
  lemma CommitsNext(history: seq<Tx>, cursor: Option<Cursor>, life: Life, n: nat)
    requires Confirmed(history) && PointsInto(history, cursor) && WellFed(history, cursor, life) && n < |life.arrivals|
    ensures var now, next := Indexer.Run(cursor, life.arrivals[..n]).cursor, Indexer.Run(cursor, life.arrivals[..n + 1]).cursor;
            if Commits(cursor, life, n) then
              && PlaceOf(history, life.arrivals[n].signature) == Resume(history, now) < |history|
              && Resume(history, next) <= Resume(history, now) + 1
            else next == now
  {
    hide Indexer.Run, AppliedOf, Welcome, Log, PointsInto;
    var before, a := life.arrivals[..n], life.arrivals[n];
    assert life.arrivals[..n + 1] == before + [a];
    FedSoFar(history, cursor, life.arrivals, n + 1);
    FeedsMore(history, cursor, before, a);
    FedStep(history, cursor, before, a);
    FedLife(history, cursor, before);
    WelcomeIsApplied(history, cursor, before, a);
    NextByPlace(history, Indexer.Run(cursor, before).cursor, a.signature);
  }

  lemma {:induction false} FedSoFar(history: seq<Tx>, cursor: Option<Cursor>, arrivals: seq<Arrival>, n: nat)
    requires Feeds(history, cursor, arrivals) && n <= |arrivals|
    ensures Feeds(history, cursor, arrivals[..n])
    decreases |arrivals|
  {
    if n == |arrivals| {
      assert arrivals[..n] == arrivals;
    } else {
      FedSoFar(history, cursor, arrivals[..|arrivals| - 1], n);
      assert arrivals[..|arrivals| - 1][..n] == arrivals[..n];
    }
  }

  lemma WalkedMore(history: seq<Tx>, before: seq<Signature>, cursor: Option<Cursor>, life: Life, n: nat)
    requires Confirmed(history) && PointsInto(history, cursor) && WellFed(history, cursor, life) && n < |life.arrivals|
    requires Walked(history, before, cursor, life, n)
    ensures Walked(history, before, cursor, life, n + 1)
  {
    hide Indexer.Run, AppliedOf, WellFed, Walk, Commits, PointsInto;
    CommitsNext(history, cursor, life, n);
    var committed := before + CommittedOf(cursor, life, n);
    var sig := life.arrivals[n].signature;
    if Commits(cursor, life, n) {
      assert before + CommittedOf(cursor, life, n + 1) == committed + [sig];
      PlacesMore(history, committed, sig);
      WalkExtends(PlacesOf(history, committed), |history|, PlaceOf(history, sig), 1);
    } else {
      assert before + CommittedOf(cursor, life, n + 1) == committed;
    }
  }

  lemma NothingWalked(history: seq<Tx>, before: seq<Signature>, cursor: Option<Cursor>, life: Life)
    requires Walk(PlacesOf(history, before), |history|) && Resume(history, cursor) <= Reached(PlacesOf(history, before))
    ensures Walked(history, before, cursor, life, 0)
  {
    assert before + [] == before;
  }

  lemma {:induction false} LifeWalks(history: seq<Tx>, before: seq<Signature>, cursor: Option<Cursor>, life: Life, n: nat)
    requires Confirmed(history) && PointsInto(history, cursor) && WellFed(history, cursor, life) && n <= |life.arrivals|
    requires Walk(PlacesOf(history, before), |history|) && Resume(history, cursor) <= Reached(PlacesOf(history, before))
    ensures Walked(history, before, cursor, life, n)
    decreases n
  {
    hide *;
    if n == 0 {
      NothingWalked(history, before, cursor, life);
    } else {
      LifeWalks(history, before, cursor, life, n - 1);
      WalkedMore(history, before, cursor, life, n - 1);
    }
  }

  /** Over all lives the worker walks the history: it starts at its first transaction, never skips
      one, and only ever falls back to re-apply. */
  lemma {:induction false} LivesWalk(history: seq<Tx>, lives: seq<Life>)
    requires Confirmed(history) && AllFed(history, lives)
    ensures Walk(PlacesOf(history, CommittedByAll(lives)), |history|)
    ensures PointsInto(history, StoredAfter(lives))
    ensures Resume(history, StoredAfter(lives)) <= Reached(PlacesOf(history, CommittedByAll(lives)))
    decreases |lives|
  {
    if lives != [] {
      var init, life := lives[..|lives| - 1], lives[|lives| - 1];
      LivesWalk(history, init);
      hide Indexer.Run, AppliedOf, Feeds, CommittedOf;
      var cursor := StoredAfter(init);
      LifeWalks(history, CommittedByAll(init), cursor, life, |life.arrivals|);
      assert life.arrivals[..|life.arrivals|] == life.arrivals;
      ResumesWithin(history, cursor, life.arrivals);
      FedLife(history, cursor, life.arrivals);
    }
  }

  // The commits of all lives, as visits to the history, have recovered it.
  ghost predicate CaughtUp(history: seq<Tx>, lives: seq<Life>, visits: seq<Visit>) {
    && InRange(visits, |history|)
    && Places(visits) == PlacesOf(history, CommittedByAll(lives))
    && (if history == [] then visits == [] else visits != [] && visits[|visits| - 1].tx == |history| - 1)
  }

  lemma LivesRecover(history: seq<Tx>, lives: seq<Life>, visits: seq<Visit>)
    requires Confirmed(history) && AllFed(history, lives) && CaughtUp(history, lives, visits)
    ensures Recovers(visits, |history|)
  {
    LivesWalk(history, lives);
  }

  lemma ReceiptsRecovered(w: World, history: seq<Tx>, visits: seq<Visit>)
    requires Recorded(w, history) && Confirmed(history) && Recovers(visits, |history|)
    ensures IndexAfterVisits(w, history, visits).Ok?
    ensures AllReceipts(w, history, IndexAfterVisits(w, history, visits).value.contributions)
  {
    CrashConvergence(w, history, visits, _ => false, _ => 0);
    ConfirmedIsDistinct(history);
    TableHoldsReceipts(w, history, _ => false, _ => 0);
    hide AllReceipts;
    var a, b := IndexAfterVisits(w, history, visits).value, IndexAfter(w, history, _ => false, _ => 0).value;
    assert TimelessIndex(a).contributions == a.contributions && TimelessIndex(b).contributions == b.contributions;
  }

  /** End to end: however many times the worker crashed, lost a cursor save, saw a handler fail before or
      behind its commit, or heard a transaction late or twice in one life, once the last transaction it
      committed is the tip of the chain, its index equals the accounts of the program, and its
      contributions are the receipts of the history. `visits` are its commits, at any times, over either
      channel. What is outside: a success that a life was not to have,
      ahead of the next transaction, or again after a restart in the cursor's slot. */
  lemma WorkerConverges(w: World, history: seq<Tx>, lives: seq<Life>, visits: seq<Visit>)
    requires Recorded(w, history) && Confirmed(history) && AllFed(history, lives) && CaughtUp(history, lives, visits)
    ensures IndexAfterVisits(w, history, visits).Ok?
    ensures Matches(ChainAfter(w.deployment, history), IndexAfterVisits(w, history, visits).value,
                    NotesAfter(w.deployment, history))
    ensures AllReceipts(w, history, IndexAfterVisits(w, history, visits).value.contributions)
  {
    LivesRecover(history, lives, visits);
    RecoveredMatches(w, history, visits);
    ReceiptsRecovered(w, history, visits);
  }

  lemma LastReaches(positions: seq<nat>, n: nat)
    requires Walk(positions, n) && n <= Reached(positions)
    ensures if n == 0 then positions == [] else positions != [] && positions[|positions| - 1] == n - 1
  {
  }

  // A process whose cursor stands at the tip has left the index caught up.
  lemma TipIsCaughtUp(history: seq<Tx>, lives: seq<Life>, visits: seq<Visit>)
    requires Confirmed(history) && AllFed(history, lives) && lives != []
    requires InRange(visits, |history|) && Places(visits) == PlacesOf(history, CommittedByAll(lives))
    requires var n := |lives| - 1;
             Resume(history, Indexer.Run(StoredAfter(lives[..n]), lives[n].arrivals).cursor) >= |history|
    ensures CaughtUp(history, lives, visits)
  {
    var init, life := lives[..|lives| - 1], lives[|lives| - 1];
    LivesWalk(history, init);
    hide Indexer.Run, AppliedOf, Feeds, CommittedOf, Walk, Resume, PlacesOf;
    LifeWalks(history, CommittedByAll(init), StoredAfter(init), life, |life.arrivals|);
    assert life.arrivals[..|life.arrivals|] == life.arrivals;
    LastReaches(PlacesOf(history, CommittedByAll(lives)), |history|);
    assert |Places(visits)| == |visits| && (visits != [] ==> Places(visits)[|visits| - 1] == visits[|visits| - 1].tx);
  }

  /** The worker gets there: after any earlier lives, and whatever was fed to the present one, a pass up to
      the tip of the chain that nothing hinders leaves the index equal to the accounts. */
  lemma PassConverges(w: World, history: seq<Tx>, lives: seq<Life>, visits: seq<Visit>, before: seq<Arrival>,
                      node: Backfill.Node, k: nat, ok: nat -> bool, saved: nat -> bool)
    requires Recorded(w, history) && Confirmed(history) && AllFed(history, lives) && lives != []
    requires InRange(visits, |history|) && Places(visits) == PlacesOf(history, CommittedByAll(lives))
    requires var cursor := StoredAfter(lives[..|lives| - 1]);
             var now := Indexer.Run(cursor, before).cursor;
             && Passes.Begins(history, now, node, k) && node.tip(0) == |history| && Passes.Unhindered(history, now, node, ok)
             && lives[|lives| - 1].arrivals == before + Passes.Pushed(Passes.PassOf(now, node, k), ok, saved)
    ensures IndexAfterVisits(w, history, visits).Ok?
    ensures Matches(ChainAfter(w.deployment, history), IndexAfterVisits(w, history, visits).value,
                    NotesAfter(w.deployment, history))
    ensures AllReceipts(w, history, IndexAfterVisits(w, history, visits).value.contributions)
  {
    var init, life := lives[..|lives| - 1], lives[|lives| - 1];
    assert AllFed(history, init) && WellFed(history, StoredAfter(init), life);
    hide Recorded, AllFed, Feeds, Indexer.Run, Passes.PassOf, Passes.Pushed, Matches, AllReceipts, CommittedByAll, Passes.Begins, Walk;
    LivesWalk(history, init);
    FedSoFar(history, StoredAfter(init), life.arrivals, |before|);
    assert life.arrivals[..|before|] == before;
    Passes.PassCatchesUp(history, StoredAfter(init), before, node, k, ok, saved);
    TipIsCaughtUp(history, lives, visits);
    WorkerConverges(w, history, lives, visits);
  }
}
