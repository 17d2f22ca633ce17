/** What a restart forgets: of what earlier processes applied, a new process knows only the cursor. */
module Restarts {
  import opened Common
  import opened Program
  import opened Refinement
  import opened Tables
  import opened Indexer
  import opened History
  import opened Feeding
  import opened Passes
  import opened Samples
  import Backfill

  const AT_C: Option<Cursor> := Some(Cursor("c", 2))

  // One more arrival of a process, from the state it is in.
  lemma Then(initial: Option<Cursor>, arrivals: seq<Arrival>, s: State, applied: seq<Signature>, a: Arrival, all: seq<Arrival>)
    requires Indexer.Run(initial, arrivals) == s && AppliedOf(initial, arrivals) == applied && all == arrivals + [a]
    ensures Indexer.Run(initial, all) == Process(s, a).0
    ensures AppliedOf(initial, all) == if Process(s, a).1.Applied? then applied + [a.signature] else applied
  {
    OneMore(initial, arrivals, a);
  }

  lemma Fresh(initial: Option<Cursor>)
    ensures Indexer.Run(initial, []) == Start(initial) && AppliedOf(initial, []) == []
  {
  }

  const AFTER_B := State(Some(Cursor("b", 2)), ["c", "b"], Some(Cursor("b", 2)))
  const AFTER_D := State(Some(Cursor("d", 2)), ["c", "b", "d"], Some(Cursor("d", 2)))

  lemma OneByOne(a: Arrival, b: Arrival, c: Arrival)
    requires a == Heard(0, true) && b == Heard(1, true) && c == Heard(2, true)
    ensures Process(Start(AT_C), a) == (Start(AT_C), Late) && Process(Start(AT_C), b) == (AFTER_B, Applied)
    ensures Process(AFTER_B, c) == (AFTER_B, Duplicate)
  {
    assert "b"[0] != "c"[0];
    assert "b" !in ["c"] && "c" in ["c", "b"];
    assert Remember(["c"], "b") == ["c", "b"];
  }

  lemma TheRest(d: Arrival, e: Arrival)
    requires d == Heard(3, true) && e == Heard(4, true)
    ensures Process(AFTER_B, d) == (AFTER_D, Applied) && Process(AFTER_D, e).1 == Applied
  {
    assert "d"[0] != "c"[0] && "d"[0] != "b"[0];
    assert "d" !in ["c", "b"];
    assert Remember(["c", "b"], "d") == ["c", "b", "d"];
  }

  lemma AppliesAgain(a: Arrival, b: Arrival, c: Arrival, d: Arrival, e: Arrival)
    requires a == Heard(0, true) && b == Heard(1, true) && c == Heard(2, true) && d == Heard(3, true) && e == Heard(4, true)
    ensures AppliedOf(AT_C, [a, b, c, d, e]) == ["b", "d", "e"]
  {
    hide Indexer.Run, AppliedOf, Process;
    Fresh(AT_C);
    OneByOne(a, b, c);
    TheRest(d, e);
    Then(AT_C, [], Start(AT_C), [], a, [a]);
    Then(AT_C, [a], Start(AT_C), [], b, [a, b]);
    Then(AT_C, [a, b], AFTER_B, ["b"], c, [a, b, c]);
    Then(AT_C, [a, b, c], AFTER_B, ["b"], d, [a, b, c, d]);
    Then(AT_C, [a, b, c, d], AFTER_D, ["b", "d"], e, [a, b, c, d, e]);
  }

  /** A process that starts from the cursor c and hears the whole chain again, every handler succeeding:
      it applies b once more, which an earlier process had applied, and not c after it. */
  lemma SiblingIsReapplied()
    ensures var run := Hear([0, 1, 2, 3, 4], [true, true, true, true, true]);
            AppliedOf(AT_C, run) == ["b", "d", "e"] && !Feeds(FIVE, AT_C, run)
  {
    var run := Hear([0, 1, 2, 3, 4], [true, true, true, true, true]);
    assert run == [Heard(0, true), Heard(1, true), Heard(2, true), Heard(3, true), Heard(4, true)];
    hide Hear, Indexer.Run, AppliedOf, Feeds;
    AppliesAgain(Heard(0, true), Heard(1, true), Heard(2, true), Heard(3, true), Heard(4, true));
    FiveAreConfirmed();
    PlaceIs(FIVE, 2);
    if Feeds(FIVE, AT_C, run) {
      FedLife(FIVE, AT_C, run);
    }
  }

  /** And a backfill pass does just that, on a node that has not caught up with the cursor: it lists the
      chain from its beginning. */
  lemma LaggingNodeLists(node: Backfill.Node)
    requires node.history == Listed(FIVE) && Backfill.Grows(node) && node.tip(0) == 2
    ensures Backfill.Due(node, Since(AT_C)) == Listed(FIVE)[..2]
  {
    FiveAreDistinct();
    PlaceIs(FIVE, 2);
    DueOfBehind(FIVE, AT_C, node);
    assert node.history[0..2] == node.history[..2];
  }

  /** What that does to a row: where b was a pledge and c hid it, writing b once more shows it again, and
      nothing puts it right until the pair acts again. */
  lemma ReapplyingUndoes(ix: Index, row: PledgeRow)
    requires row.creator in ix.creators && HasDates(row) && HasIntegers(row)
    ensures var key := PledgeKey(row.creator, row.supporter);
            var once := [UpsertPledge(row), UpdateVisibility(key, !row.showPublicly)];
            var again := once + [UpsertPledge(row)];
            && ApplyWrites(ix, once).Ok? && ApplyWrites(ix, again).Ok?
            && key in ApplyWrites(ix, once).value.pledges && key in ApplyWrites(ix, again).value.pledges
            && ApplyWrites(ix, again).value.pledges[key].showPublicly != ApplyWrites(ix, once).value.pledges[key].showPublicly
  {
    var key := PledgeKey(row.creator, row.supporter);
    var once := [UpsertPledge(row), UpdateVisibility(key, !row.showPublicly)];
    assert once == [UpsertPledge(row)] + [UpdateVisibility(key, !row.showPublicly)];
    OneWrite(ix, UpsertPledge(row));
    var first := ApplyWrite(ix, UpsertPledge(row)).value;
    OneWrite(first, UpdateVisibility(key, !row.showPublicly));
    ApplyAppend(ix, [UpsertPledge(row)], [UpdateVisibility(key, !row.showPublicly)]);
    var second := ApplyWrite(first, UpdateVisibility(key, !row.showPublicly)).value;
    OneWrite(second, UpsertPledge(row));
    ApplyAppend(ix, once, [UpsertPledge(row)]);
  }
}
