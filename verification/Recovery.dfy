/** The worker across crashes: transactions are handled again from wherever the stored cursor left
    off, on either channel and at any later time, and the index still refines the chain. */
module Recovery {
  import opened Common
  import opened Program
  import opened Runs
  import opened Tables
  import opened Refinement
  import opened Walks
  import opened Replay

  // `indexedAt` is the one column that says when the worker ran rather than what the chain says.
  function Timeless(write: Write): Write {
    if write.UpsertCreator? then UpsertCreator(write.creator.(indexedAt := 0)) else write
  }

  function TimelessAll(ws: seq<Write>): seq<Write> {
    seq(|ws|, i requires 0 <= i < |ws| => Timeless(ws[i]))
  }

  function TimelessIndex(ix: Index): Index {
    ix.(creators := map w | w in ix.creators :: ix.creators[w].(indexedAt := 0))
  }

  lemma TimelessUpsert(ix: Index, row: CreatorRow)
    ensures ApplyWrite(TimelessIndex(ix), Timeless(UpsertCreator(row)))
            == match ApplyWrite(ix, UpsertCreator(row)) case Err(e) => Err(e) case Ok(next) => Ok(TimelessIndex(next))
  {
    var t, write := TimelessIndex(ix), UpsertCreator(row);
    if row.wallet in ix.creators {
      var next := ApplyWrite(ix, write).value;
      assert ApplyWrite(t, Timeless(write)).value.creators == TimelessIndex(next).creators;
    } else {
      forall w | w in ix.creators ensures t.creators[w].handle == ix.creators[w].handle {
      }
      assert HandleUsed(t, row.handle) == HandleUsed(ix, row.handle);
      if ApplyWrite(ix, write).Ok? {
        assert ApplyWrite(t, Timeless(write)).value.creators == TimelessIndex(ApplyWrite(ix, write).value).creators;
      }
    }
  }

  lemma TimelessStep(ix: Index, write: Write)
    ensures ApplyWrite(TimelessIndex(ix), Timeless(write))
            == match ApplyWrite(ix, write) case Err(e) => Err(e) case Ok(next) => Ok(TimelessIndex(next))
  {
    if write.UpsertCreator? {
      TimelessUpsert(ix, write.creator);
    }
  }

  lemma {:induction false} TimelessApply(ix: Index, ws: seq<Write>)
    ensures ApplyWrites(TimelessIndex(ix), TimelessAll(ws))
            == match ApplyWrites(ix, ws) case Err(e) => Err(e) case Ok(next) => Ok(TimelessIndex(next))
    decreases |ws|
  {
    if ws != [] {
      TimelessStep(ix, ws[0]);
      assert TimelessAll(ws)[1..] == TimelessAll(ws[1..]);
      if ApplyWrite(ix, ws[0]).Ok? {
        TimelessApply(ApplyWrite(ix, ws[0]).value, ws[1..]);
      }
    }
  }

  lemma {:induction false} TimelessPlan(w: World, tx: Tx, events: seq<ProgramEvent>, now: int)
    ensures TimelessAll(AllWrites(w, tx, events, now)) == AllWrites(w, tx, events, 0)
    decreases |events|
  {
    if events != [] {
      TimelessPlan(w, tx, events[1..], now);
      assert TimelessAll(EventWrites(w, tx, events[0], now)) == EventWrites(w, tx, events[0], 0);
    }
  }

  /** One handling of a transaction of the history. */
  datatype Visit = Visit(tx: nat, live: bool, now: int)

  predicate InRange(visits: seq<Visit>, n: nat) {
    forall t :: 0 <= t < |visits| ==> visits[t].tx < n
  }

  // The index after the worker handled transactions of the history in the order of the visits.
  function IndexAfterVisits(w: World, history: seq<Tx>, visits: seq<Visit>): Result<Index, ApplyError>
    requires InRange(visits, |history|)
  {
    if visits == [] then Ok(EMPTY)
    else
      var v := visits[|visits| - 1];
      match IndexAfterVisits(w, history, visits[..|visits| - 1])
      case Err(e) => Err(e)
      case Ok(ix) =>
        Handle(w.reader, w.rpc, v.now, ix, Delivered(w, ChainAfter(w.deployment, history[..v.tx]), history[v.tx], v.live))
  }

  function WritesAt(w: World, history: seq<Tx>, i: nat, now: int): seq<Write>
    requires i < |history|
  {
    AllWrites(w, history[i], EventsOf(w.deployment, ChainAfter(w.deployment, history[..i]), history[i]), now)
  }

  // The writes of each transaction of the history, without times.
  ghost function Chunks(w: World, history: seq<Tx>): seq<seq<Write>> {
    seq(|history|, i requires 0 <= i < |history| => WritesAt(w, history, i, 0))
  }

  lemma {:induction false} HistoryIsFlat(w: World, history: seq<Tx>, now: nat -> int)
    ensures TimelessAll(HistoryWrites(w, history, now)) == Flat(Chunks(w, history))
    decreases |history|
  {
    if history != [] {
      var n := |history| - 1;
      HistoryIsFlat(w, history[..n], now);
      TimelessAppend(HistoryWrites(w, history[..n], now), WritesAt(w, history, n, now(n)));
      TimelessPlan(w, history[n], EventsOf(w.deployment, ChainAfter(w.deployment, history[..n]), history[n]), now(n));
      ChunksInit(w, history);
    }
  }

  lemma ChunksInit(w: World, history: seq<Tx>)
    requires history != []
    ensures Chunks(w, history)[..|history| - 1] == Chunks(w, history[..|history| - 1])
  {
    forall i | 0 <= i < |history| - 1
      ensures Chunks(w, history)[i] == Chunks(w, history[..|history| - 1])[i]
    {
      assert history[..|history| - 1][..i] == history[..i];
    }
  }

  lemma TimelessAppend(a: seq<Write>, b: seq<Write>)
    ensures TimelessAll(a + b) == TimelessAll(a) + TimelessAll(b)
  {
  }

  function VisitWrites(w: World, history: seq<Tx>, visits: seq<Visit>): seq<Write>
    requires InRange(visits, |history|)
  {
    if visits == [] then []
    else
      var v := visits[|visits| - 1];
      VisitWrites(w, history, visits[..|visits| - 1]) + WritesAt(w, history, v.tx, v.now)
  }

  lemma {:induction false} VisitsApply(w: World, history: seq<Tx>, visits: seq<Visit>)
    requires Recorded(w, history) && InRange(visits, |history|)
    ensures IndexAfterVisits(w, history, visits) == ApplyWrites(EMPTY, VisitWrites(w, history, visits))
    decreases |visits|
  {
    if visits != [] {
      var init, v := visits[..|visits| - 1], visits[|visits| - 1];
      VisitsApply(w, history, init);
      WritesOfDelivered(w, ChainAfter(w.deployment, history[..v.tx]), history[v.tx], v.live, v.now);
      ApplyAppend(EMPTY, VisitWrites(w, history, init), WritesAt(w, history, v.tx, v.now));
    }
  }

  function Places(visits: seq<Visit>): seq<nat> {
    seq(|visits|, t requires 0 <= t < |visits| => visits[t].tx)
  }

  lemma {:induction false} VisitsAreFlat(w: World, history: seq<Tx>, visits: seq<Visit>)
    requires InRange(visits, |history|)
    ensures TimelessAll(VisitWrites(w, history, visits)) == Flat(Seen(Chunks(w, history), Places(visits)))
    decreases |visits|
  {
    hide EventsOf, ChainAfter, AllWrites;
    if visits != [] {
      var init, v := visits[..|visits| - 1], visits[|visits| - 1];
      VisitsAreFlat(w, history, init);
      TimelessAppend(VisitWrites(w, history, init), WritesAt(w, history, v.tx, v.now));
      TimelessPlan(w, history[v.tx], EventsOf(w.deployment, ChainAfter(w.deployment, history[..v.tx]), history[v.tx]), v.now);
      assert Seen(Chunks(w, history), Places(visits))[..|init|] == Seen(Chunks(w, history), Places(init));
    }
  }

  // Equal but for `indexedAt`.
  ghost predicate SameIndex(a: Index, b: Index) {
    TimelessIndex(a) == TimelessIndex(b)
  }

  lemma UndisturbedIsFlat(w: World, history: seq<Tx>, live: nat -> bool, now: nat -> int)
    requires Recorded(w, history)
    ensures IndexAfter(w, history, live, now).Ok?
    ensures ApplyWrites(EMPTY, Flat(Chunks(w, history))) == Ok(TimelessIndex(IndexAfter(w, history, live, now).value))
  {
    IndexMatchesChain(w, history, live, now);
    HistoryIsFlat(w, history, now);
    TimelessApply(EMPTY, HistoryWrites(w, history, now));
    assert TimelessIndex(EMPTY) == EMPTY;
  }

  lemma MatchesTimeless(c: Chain, a: Index, b: Index, n: Notes)
    requires Matches(c, a, n) && SameIndex(a, b)
    ensures Matches(c, b, n)
  {
    assert a.creators.Keys == TimelessIndex(a).creators.Keys == TimelessIndex(b).creators.Keys == b.creators.Keys;
    forall w | w in c.creators ensures CreatorMatches(w, c.creators[w], n.slots[w], b.creators[w]) {
      assert CreatorMatches(w, c.creators[w], n.slots[w], a.creators[w]);
      assert TimelessIndex(a).creators[w] == TimelessIndex(b).creators[w];
    }
  }

  // The worker advances by single transactions, falls back any distance at any time, and ends at
  // the last transaction of the history.
  predicate Recovers(visits: seq<Visit>, n: nat) {
    && InRange(visits, n)
    && Walk(Places(visits), n)
    && (if n == 0 then visits == [] else visits != [] && visits[|visits| - 1].tx == n - 1)
  }

  // Whole chunks, walked to the last one, build what they build in order.
  lemma ChunksConverge(chunks: seq<seq<Write>>, places: seq<nat>)
    requires Walk(places, |chunks|) && ApplyWrites(EMPTY, Flat(chunks)).Ok?
    requires if chunks == [] then places == [] else places != [] && places[|places| - 1] == |chunks| - 1
    ensures ApplyWrites(EMPTY, Flat(Seen(chunks, places))) == ApplyWrites(EMPTY, Flat(chunks))
  {
    FlatWalk(chunks, places);
    assert chunks[..|chunks|] == chunks;
    WalkConverges(Flat(chunks), FlatPositions(chunks, places));
  }

  lemma RecoveryBuilds(w: World, history: seq<Tx>, visits: seq<Visit>, base: Index)
    requires Recorded(w, history) && Recovers(visits, |history|)
    requires ApplyWrites(EMPTY, Flat(Chunks(w, history))) == Ok(base)
    ensures IndexAfterVisits(w, history, visits).Ok?
    ensures TimelessIndex(IndexAfterVisits(w, history, visits).value) == base
  {
    ChunksConverge(Chunks(w, history), Places(visits));
    VisitsAreFlat(w, history, visits);
    VisitsApply(w, history, visits);
    TimelessApply(EMPTY, VisitWrites(w, history, visits));
    assert TimelessIndex(EMPTY) == EMPTY;
  }

  /** Crash convergence: however often the worker fell back and handled transactions again, on
      whichever channel and whenever, once it has handled the last transaction of the history its
      index is the one built without interruption, and refines the chain. */
  lemma CrashConvergence(w: World, history: seq<Tx>, visits: seq<Visit>, live: nat -> bool, now: nat -> int)
    requires Recorded(w, history) && Recovers(visits, |history|)
    ensures IndexAfterVisits(w, history, visits).Ok? && IndexAfter(w, history, live, now).Ok?
    ensures SameIndex(IndexAfterVisits(w, history, visits).value, IndexAfter(w, history, live, now).value)
    ensures Matches(ChainAfter(w.deployment, history), IndexAfterVisits(w, history, visits).value,
                    NotesAfter(w.deployment, history))
  {
    UndisturbedIsFlat(w, history, live, now);
    RecoveryBuilds(w, history, visits, TimelessIndex(IndexAfter(w, history, live, now).value));
    IndexMatchesChain(w, history, live, now);
    MatchesTimeless(ChainAfter(w.deployment, history), IndexAfter(w, history, live, now).value,
                    IndexAfterVisits(w, history, visits).value, NotesAfter(w.deployment, history));
  }

  lemma RecoveredMatches(w: World, history: seq<Tx>, visits: seq<Visit>)
    requires Recorded(w, history) && Recovers(visits, |history|)
    ensures IndexAfterVisits(w, history, visits).Ok?
    ensures Matches(ChainAfter(w.deployment, history), IndexAfterVisits(w, history, visits).value,
                    NotesAfter(w.deployment, history))
  {
    CrashConvergence(w, history, visits, _ => false, _ => 0);
  }
}
