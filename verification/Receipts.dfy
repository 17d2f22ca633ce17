/** The rows of the `contributions` table, column by column: one for each transaction that pledged, made
    of its first pledge, its block time and the ciphertext the node serves for it. */
module Receipts {
  import opened Common
  import opened Program
  import opened Runs
  import opened Tables
  import opened Refinement
  import opened Ledger

  ghost predicate FirstPledge(events: seq<ProgramEvent>, j: nat) {
    j < |events| && events[j].Pledged? && forall i :: 0 <= i < j ==> !events[i].Pledged?
  }

  ghost function ReceiptOf(w: World, tx: Tx, e: ProgramEvent): ContributionRow
    requires e.Pledged? && Plannable(w, tx, e)
  {
    var c := w.rpc.ciphertext(tx.signature).value;
    ContributionRow(tx.signature, e.creator, e.supporter, tx.clock.slot, tx.blockTime.value * 1000, e.periods,
                    if e.contributions == 1 then FirstContribution else RenewalContribution,
                    c.groupedLo, c.groupedHi, c.proofSig)
  }

  function EventsAt(w: World, history: seq<Tx>, i: nat): seq<ProgramEvent>
    requires i < |history|
  {
    EventsOf(w.deployment, ChainAfter(w.deployment, history[..i]), history[i])
  }

  // The row of a transaction, if it pledged, is the receipt of its first pledge.
  ghost predicate HasReceipt(w: World, tx: Tx, events: seq<ProgramEvent>, rows: map<Signature, ContributionRow>) {
    && (tx.signature in rows <==> AnyPledged(events))
    && forall j: nat :: FirstPledge(events, j) ==>
         Plannable(w, tx, events[j]) && tx.signature in rows && rows[tx.signature] == ReceiptOf(w, tx, events[j])
  }

  ghost predicate AllReceipts(w: World, history: seq<Tx>, rows: map<Signature, ContributionRow>) {
    && rows.Keys <= Signatures(history)
    && forall i: nat :: i < |history| ==> HasReceipt(w, history[i], EventsAt(w, history, i), rows)
  }

  lemma EventReceipt(w: World, tx: Tx, event: ProgramEvent, now: int, ix: Index)
    requires Plannable(w, tx, event) && ApplyWrites(ix, EventWrites(w, tx, event, now)).Ok?
    ensures var rows := ApplyWrites(ix, EventWrites(w, tx, event, now)).value.contributions;
            rows == if event.Pledged? && tx.signature !in ix.contributions
                    then ix.contributions[tx.signature := ReceiptOf(w, tx, event)] else ix.contributions
  {
    var writes := EventWrites(w, tx, event, now);
    if event.Pledged? {
      assert writes[1..] == [writes[1]];
      OneWrite(ApplyWrite(ix, writes[0]).value, writes[1]);
    } else {
      assert writes == [writes[0]];
      OneWrite(ix, writes[0]);
    }
  }

  lemma {:induction false} EventsReceipt(w: World, tx: Tx, events: seq<ProgramEvent>, now: int, ix: Index)
    requires AllPlannable(w, tx, events) && ApplyWrites(ix, AllWrites(w, tx, events, now)).Ok?
    ensures var rows := ApplyWrites(ix, AllWrites(w, tx, events, now)).value.contributions;
            && (tx.signature in ix.contributions || !AnyPledged(events) ==> rows == ix.contributions)
            && forall j: nat :: FirstPledge(events, j) && tx.signature !in ix.contributions ==>
                 rows == ix.contributions[tx.signature := ReceiptOf(w, tx, events[j])]
    decreases |events|
  {
    if events != [] {
      var first, rest := EventWrites(w, tx, events[0], now), events[1..];
      PlannableRest(w, tx, events);
      ApplyAppend(ix, first, AllWrites(w, tx, rest, now));
      EventReceipt(w, tx, events[0], now, ix);
      EventsReceipt(w, tx, rest, now, ApplyWrites(ix, first).value);
      AnyPledgedRest(events);
      hide EventWrites, AllWrites, ApplyWrites, ReceiptOf, Plannable;
      forall j: nat | FirstPledge(events, j) ensures j == 0 <==> events[0].Pledged? {
      }
      forall j: nat | FirstPledge(events, j) && j > 0 ensures FirstPledge(rest, j - 1) {
        assert forall i :: 0 <= i < j - 1 ==> rest[i] == events[i + 1];
      }
    }
  }

  lemma {:induction false} SomeFirstPledge(events: seq<ProgramEvent>) returns (j: nat)
    requires AnyPledged(events)
    ensures FirstPledge(events, j)
    decreases |events|
  {
    if events[0].Pledged? {
      j := 0;
    } else {
      AnyPledgedRest(events);
      j := SomeFirstPledge(events[1..]);
      assert forall i :: 0 < i < |events| ==> events[i] == events[1..][i - 1];
      j := j + 1;
    }
  }

  lemma NoFirstPledge(events: seq<ProgramEvent>)
    requires !AnyPledged(events)
    ensures forall j: nat :: !FirstPledge(events, j)
  {
  }

  // A transaction that is new to the table leaves its receipt and no other trace.
  lemma TxReceipt(w: World, tx: Tx, events: seq<ProgramEvent>, now: int, ix: Index)
    requires AllPlannable(w, tx, events) && ApplyWrites(ix, AllWrites(w, tx, events, now)).Ok?
    requires tx.signature !in ix.contributions
    ensures var rows := ApplyWrites(ix, AllWrites(w, tx, events, now)).value.contributions;
            && HasReceipt(w, tx, events, rows)
            && rows.Keys <= ix.contributions.Keys + {tx.signature}
            && forall s :: s in ix.contributions ==> s in rows && rows[s] == ix.contributions[s]
  {
    EventsReceipt(w, tx, events, now, ix);
    hide AllWrites, ApplyWrites, ReceiptOf, AnyPledged;
    var rows := ApplyWrites(ix, AllWrites(w, tx, events, now)).value.contributions;
    if AnyPledged(events) {
      var j := SomeFirstPledge(events);
      assert rows == ix.contributions[tx.signature := ReceiptOf(w, tx, events[j])];
      forall i: nat | FirstPledge(events, i) ensures i == j {
      }
    } else {
      NoFirstPledge(events);
    }
  }

  // Rows of other transactions change nothing about this one.
  lemma KeepsReceipt(w: World, tx: Tx, events: seq<ProgramEvent>, before: map<Signature, ContributionRow>,
                     rows: map<Signature, ContributionRow>, other: Signature)
    requires HasReceipt(w, tx, events, before) && tx.signature != other
    requires rows.Keys <= before.Keys + {other} && forall s :: s in before ==> s in rows && rows[s] == before[s]
    ensures HasReceipt(w, tx, events, rows)
  {
    hide ReceiptOf, FirstPledge, AnyPledged, Plannable;
  }

  lemma SameEvents(w: World, history: seq<Tx>, n: nat, i: nat)
    requires i < n <= |history|
    ensures EventsAt(w, history[..n], i) == EventsAt(w, history, i)
  {
    assert history[..n][..i] == history[..i];
  }

  lemma ReceiptsGrow(w: World, history: seq<Tx>, before: map<Signature, ContributionRow>, rows: map<Signature, ContributionRow>)
    requires history != [] && DistinctSignatures(history)
    requires AllReceipts(w, history[..|history| - 1], before)
    requires HasReceipt(w, history[|history| - 1], EventsAt(w, history, |history| - 1), rows)
    requires rows.Keys <= before.Keys + {history[|history| - 1].signature}
    requires forall s :: s in before ==> s in rows && rows[s] == before[s]
    ensures AllReceipts(w, history, rows)
  {
    hide EventsAt, HasReceipt;
    var n := |history| - 1;
    SignaturesGrow(history);
    forall i: nat | i < n ensures HasReceipt(w, history[i], EventsAt(w, history, i), rows) {
      SameEvents(w, history, n, i);
      assert history[..n][i] == history[i];
      KeepsReceipt(w, history[i], EventsAt(w, history, i), before, rows, history[n].signature);
    }
  }

  // One more transaction on tables that match the chain before it.
  lemma TxLeaves(w: World, c: Chain, tx: Tx, live: bool, now: int, ix: Index, n: Notes)
    requires Sound(w) && Logged(w, c, tx) && Inv(c) && Matches(c, ix, n)
    requires AllStorable(w, tx, EventsOf(w.deployment, c, tx)) && tx.signature !in ix.contributions
    ensures var handled := Handle(w.reader, w.rpc, now, ix, Delivered(w, c, tx, live));
            && handled.Ok?
            && HasReceipt(w, tx, EventsOf(w.deployment, c, tx), handled.value.contributions)
            && handled.value.contributions.Keys <= ix.contributions.Keys + {tx.signature}
            && forall s :: s in ix.contributions ==>
                 s in handled.value.contributions && handled.value.contributions[s] == ix.contributions[s]
  {
    TxRefined(w, c, tx, live, now, ix, n);
    StorableIsPlannable(w, tx, EventsOf(w.deployment, c, tx));
    hide HasReceipt, Matches, Inv, Handle, Delivered, ApplyWrites, AllWrites;
    TxReceipt(w, tx, EventsOf(w.deployment, c, tx), now, ix);
  }

  /** Every contribution row of every history: the table has one row for each transaction that pledged
      and no other, and each column of it is what the first pledge of the transaction, its block and the
      node say. */
  lemma {:induction false} TableHoldsReceipts(w: World, history: seq<Tx>, live: nat -> bool, now: nat -> int)
    requires Recorded(w, history) && DistinctSignatures(history)
    ensures IndexAfter(w, history, live, now).Ok?
    ensures AllReceipts(w, history, IndexAfter(w, history, live, now).value.contributions)
    decreases |history|
  {
    IndexMatchesChain(w, history, live, now);
    if history != [] {
      var n := |history| - 1;
      var init, tx := history[..n], history[n];
      var c, events := ChainAfter(w.deployment, init), EventsAt(w, history, n);
      RecordedPrefix(w, history, n);
      TableHoldsReceipts(w, init, live, now);
      IndexMatchesChain(w, init, live, now);
      Reachable(w.deployment, init);
      SignaturesGrow(history);
      hide HasReceipt, Matches, Inv, Handle, EventsOf, ApplyWrites, AllWrites;
      var ix := IndexAfter(w, init, live, now).value;
      TxLeaves(w, c, tx, live(n), now(n), ix, NotesAfter(w.deployment, init));
      hide AllReceipts;
      ReceiptsGrow(w, history, ix.contributions, IndexAfter(w, history, live, now).value.contributions);
    }
  }
}
