/** The confirmed history of the program, and where the cursor of a worker stands in it. */
module History {
  import opened Common
  import opened Runs
  import opened Ledger
  import opened Indexer
  import Backfill

  // The history as the node lists it.
  function Listed(history: seq<Tx>): seq<Backfill.SignatureInfo> {
    seq(|history|, i requires 0 <= i < |history| => Backfill.SignatureInfo(history[i].signature, history[i].clock.slot))
  }

  // The place of a transaction in the history, or its length.
  function PlaceOf(history: seq<Tx>, sig: Signature): (n: nat)
    ensures n <= |history|
    ensures n < |history| ==> history[n].signature == sig
    ensures forall i :: 0 <= i < n ==> history[i].signature != sig
  {
    var listed := Listed(history);
    assert forall i :: 0 <= i < |history| ==> listed[i].signature == history[i].signature;
    Backfill.Place(listed, sig)
  }

  function SlotIn(history: seq<Tx>): Signature -> int {
    sig => var n := PlaceOf(history, sig); if n < |history| then history[n].clock.slot else 0
  }

  // A confirmed chain: signatures identify transactions, slots never fall, and no slot holds more
  // transactions of the program than the indexer remembers.
  ghost predicate Confirmed(history: seq<Tx>) {
    && DistinctSignatures(history)
    && (forall i, j :: 0 <= i < j < |history| ==> history[i].clock.slot <= history[j].clock.slot)
    && Fits(SlotIn(history), Signatures(history))
  }

  lemma ConfirmedIsDistinct(history: seq<Tx>)
    requires Confirmed(history)
    ensures DistinctSignatures(history)
  {
  }

  // Where a life that starts from this cursor has to resume.
  function Resume(history: seq<Tx>, cursor: Option<Cursor>): nat {
    if cursor.None? then 0 else PlaceOf(history, cursor.value.signature) + 1
  }

  predicate PointsInto(history: seq<Tx>, cursor: Option<Cursor>) {
    cursor.Some? ==>
      && PlaceOf(history, cursor.value.signature) < |history|
      && cursor.value.slot == SlotIn(history)(cursor.value.signature)
  }

  predicate OfHistory(history: seq<Tx>, a: Arrival) {
    PlaceOf(history, a.signature) < |history| && a.slot == SlotIn(history)(a.signature)
  }

  lemma PlaceIs(history: seq<Tx>, n: nat)
    requires DistinctSignatures(history) && n < |history|
    ensures PlaceOf(history, history[n].signature) == n
    ensures SlotIn(history)(history[n].signature) == history[n].clock.slot
    ensures history[n].signature in Signatures(history)
  {
    var p := PlaceOf(history, history[n].signature);
    assert p <= n;
  }

  lemma SamePlaceIff(history: seq<Tx>, a: Signature, b: Signature)
    requires PlaceOf(history, a) < |history|
    ensures PlaceOf(history, a) == PlaceOf(history, b) <==> a == b
  {
  }

  lemma SlotsFollowPlaces(history: seq<Tx>, i: nat, j: nat)
    requires Confirmed(history) && i <= j < |history|
    ensures SlotIn(history)(history[i].signature) <= SlotIn(history)(history[j].signature)
  {
    PlaceIs(history, i);
    PlaceIs(history, j);
  }

  ghost predicate AllOfHistory(history: seq<Tx>, arrivals: seq<Arrival>) {
    forall i :: 0 <= i < |arrivals| ==> OfHistory(history, arrivals[i])
  }

  lemma HistoryIsChain(history: seq<Tx>, cursor: Option<Cursor>, arrivals: seq<Arrival>)
    requires DistinctSignatures(history) && PointsInto(history, cursor) && AllOfHistory(history, arrivals)
    ensures OnChain(SlotIn(history), Signatures(history), cursor, arrivals)
  {
    if cursor.Some? {
      PlaceIs(history, PlaceOf(history, cursor.value.signature));
    }
    forall i | 0 <= i < |arrivals| ensures arrivals[i].signature in Signatures(history) {
      assert OfHistory(history, arrivals[i]);
      PlaceIs(history, PlaceOf(history, arrivals[i].signature));
    }
  }

  // An arrival is applied exactly when it is accepted by the handler, not late, and new.
  lemma AppliedWhen(history: seq<Tx>, cursor: Option<Cursor>, arrivals: seq<Arrival>, a: Arrival)
    requires Confirmed(history) && PointsInto(history, cursor) && AllOfHistory(history, arrivals) && OfHistory(history, a)
    ensures var s := Indexer.Run(cursor, arrivals);
            Process(s, a).1.Applied?
            <==> a.handled && !(s.cursor.Some? && a.slot < s.cursor.value.slot) && a.signature !in Log(cursor, arrivals)
  {
    var s := Indexer.Run(cursor, arrivals);
    HistoryIsChain(history, cursor, arrivals);
    RecentIsLast(cursor, arrivals);
    LogStaysOnChain(SlotIn(history), Signatures(history), cursor, arrivals);
    if s.cursor.None? || s.cursor.value.slot <= a.slot {
      NextIsBehindIffKnown(SlotIn(history), Signatures(history), cursor, arrivals, a);
    }
  }

  function Since(cursor: Option<Cursor>): Option<Signature> {
    if cursor.None? then None else Some(cursor.value.signature)
  }

  // What a pass has due is the history from where the life resumes.
  lemma DueIsTheRest(history: seq<Tx>, cursor: Option<Cursor>, node: Backfill.Node)
    requires PointsInto(history, cursor) && node.history == Listed(history) && Backfill.Grows(node)
    requires Resume(history, cursor) <= node.tip(0)
    ensures !Backfill.Beyond(node, Since(cursor)) && node.tip(0) <= |node.history|
    ensures Backfill.Due(node, Since(cursor)) == node.history[Resume(history, cursor)..node.tip(0)]
  {
    var from, tip := Resume(history, cursor), node.tip(0);
    if cursor.Some? {
      Backfill.PlaceInPrefix(node.history, cursor.value.signature, tip);
    }
    assert node.history[..tip][from..] == node.history[from..tip];
  }
}
