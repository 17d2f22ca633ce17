/** The indexer: one transaction at a time, in arrival order, behind a cursor and a ring of the
    signatures it handled last. */
module Indexer {
  import opened Common
  import opened Decimal

  const RECENT_SIGNATURES := 256

  datatype Cursor = Cursor(signature: Signature, slot: nat)

  // A numeric column, as the database client hands it over.
  type Numeric = s: string | s != "" && AllDigits(s) witness "0"

  // The row of the store, which may be absent or half empty.
  datatype CursorRow = CursorRow(lastSig: Option<Signature>, lastSlot: Option<Numeric>)

  function RowToCursor(row: Option<CursorRow>): Option<Cursor> {
    if row.None? || row.value.lastSig.None? || row.value.lastSlot.None? then None
    else Some(Cursor(row.value.lastSig.value, Value(row.value.lastSlot.value)))
  }

  function SavedRow(cursor: Cursor): CursorRow {
    CursorRow(Some(cursor.signature), Some(Digits(cursor.slot)))
  }

  /** The next process loads the cursor that was saved. */
  lemma SavedIsLoaded(cursor: Cursor)
    ensures RowToCursor(Some(SavedRow(cursor))) == Some(cursor)
  {
    ValueOfDigits(cursor.slot);
  }

  /** A row is a cursor exactly when both its columns are there. */
  lemma RowIsCursor(row: Option<CursorRow>, c: Cursor)
    ensures RowToCursor(row) == Some(c)
            <==> row.Some? && row.value.lastSig == Some(c.signature) && row.value.lastSlot.Some? && Value(row.value.lastSlot.value) == c.slot
  {
  }

  /** A transaction reaching the head of the queue, with how its handler and the cursor save end. */
  datatype Arrival = Arrival(signature: Signature, slot: nat, handled: bool, saved: bool)

  datatype Disposition = Applied | Duplicate | Late | Failed

  datatype State = State(cursor: Option<Cursor>, recent: seq<Signature>, stored: Option<Cursor>)

  function Start(initial: Option<Cursor>): State {
    State(initial, if initial.None? then [] else [initial.value.signature], initial)
  }

  predicate Behind(s: State, a: Arrival) {
    && s.cursor.Some?
    && (a.slot < s.cursor.value.slot || (a.slot == s.cursor.value.slot && a.signature in s.recent))
  }

  function Remember(recent: seq<Signature>, sig: Signature): seq<Signature> {
    var pushed := recent + [sig];
    if |pushed| > RECENT_SIGNATURES then pushed[1..] else pushed
  }

  function Process(s: State, a: Arrival): (State, Disposition) {
    if Behind(s, a) then (s, if a.slot < s.cursor.value.slot then Late else Duplicate)
    else if !a.handled then (s, Failed)
    else
      var cursor := Cursor(a.signature, a.slot);
      (State(Some(cursor), Remember(s.recent, a.signature), if a.saved then Some(cursor) else s.stored), Applied)
  }

  function Run(initial: Option<Cursor>, arrivals: seq<Arrival>): State {
    if arrivals == [] then Start(initial)
    else Process(Run(initial, arrivals[..|arrivals| - 1]), arrivals[|arrivals| - 1]).0
  }

  // What became of arrival `i`.
  function Fate(initial: Option<Cursor>, arrivals: seq<Arrival>, i: nat): Disposition
    requires i < |arrivals|
  {
    Process(Run(initial, arrivals[..i]), arrivals[i]).1
  }

  // The signatures applied by one process, in order.
  function AppliedOf(initial: Option<Cursor>, arrivals: seq<Arrival>): seq<Signature> {
    if arrivals == [] then []
    else
      var n := |arrivals| - 1;
      AppliedOf(initial, arrivals[..n]) + if Fate(initial, arrivals, n).Applied? then [arrivals[n].signature] else []
  }

  // The cursor's own signature counts as applied, by the process that stored it.
  function Log(initial: Option<Cursor>, arrivals: seq<Arrival>): seq<Signature> {
    (if initial.None? then [] else [initial.value.signature]) + AppliedOf(initial, arrivals)
  }

  class Worker {
    var cursor: Option<Cursor>
    var recent: seq<Signature>
    var stored: Option<CursorRow>

    ghost function View(): State
      reads this
    {
      State(cursor, recent, RowToCursor(stored))
    }

    constructor (row: Option<CursorRow>)
      ensures View() == Start(RowToCursor(row))
    {
      var initial := RowToCursor(row);
      cursor := initial;
      recent := if initial.None? then [] else [initial.value.signature];
      stored := row;
    }

    predicate IsBehind(a: Arrival)
      reads this
    {
      if cursor.None? then false
      else if a.slot < cursor.value.slot then true
      else a.slot == cursor.value.slot && a.signature in recent
    }

    method ProcessNext(a: Arrival) returns (fate: Disposition)
      modifies this
      ensures (View(), fate) == Process(old(View()), a)
    {
      if IsBehind(a) {
        return if a.slot < cursor.value.slot then Late else Duplicate;
      }
      if !a.handled { return Failed; }
      cursor := Some(Cursor(a.signature, a.slot));
      recent := recent + [a.signature];
      if |recent| > RECENT_SIGNATURES { recent := recent[1..]; }
      if a.saved {
        stored := Some(SavedRow(cursor.value));
        SavedIsLoaded(cursor.value);
      }
      fate := Applied;
    }
  }

  function Last<T>(s: seq<T>, n: nat): seq<T> {
    if |s| <= n then s else s[|s| - n..]
  }

  lemma RememberIsLast(log: seq<Signature>, sig: Signature)
    ensures Remember(Last(log, RECENT_SIGNATURES), sig) == Last(log + [sig], RECENT_SIGNATURES)
  {
  }

  // The ring, the cursor and the log of a process belong together.
  predicate RingMatches(s: State, log: seq<Signature>) {
    && s.recent == Last(log, RECENT_SIGNATURES)
    && (s.cursor.None? <==> log == [])
    && (s.cursor.Some? ==> log[|log| - 1] == s.cursor.value.signature)
  }

  lemma RingStep(s: State, log: seq<Signature>, a: Arrival)
    requires RingMatches(s, log)
    ensures RingMatches(Process(s, a).0, if Process(s, a).1.Applied? then log + [a.signature] else log)
  {
    hide Remember, Last;
    RememberIsLast(log, a.signature);
  }

  lemma {:induction false} RingIsLog(initial: Option<Cursor>, arrivals: seq<Arrival>)
    ensures RingMatches(Run(initial, arrivals), Log(initial, arrivals))
    decreases |arrivals|
  {
    if arrivals != [] {
      var n := |arrivals| - 1;
      RingIsLog(initial, arrivals[..n]);
      RingStep(Run(initial, arrivals[..n]), Log(initial, arrivals[..n]), arrivals[n]);
      LogGrows(initial, arrivals);
    }
  }

  lemma LogGrows(initial: Option<Cursor>, arrivals: seq<Arrival>)
    requires arrivals != []
    ensures var n := |arrivals| - 1;
            Log(initial, arrivals)
            == if Fate(initial, arrivals, n).Applied? then Log(initial, arrivals[..n]) + [arrivals[n].signature]
               else Log(initial, arrivals[..n])
  {
  }

  /** The ring holds the most recent entries of the log, never more than 256. */
  lemma RecentIsLast(initial: Option<Cursor>, arrivals: seq<Arrival>)
    ensures Run(initial, arrivals).recent == Last(Log(initial, arrivals), 256)
    ensures Run(initial, arrivals).cursor.None? <==> Log(initial, arrivals) == []
    ensures Run(initial, arrivals).cursor.Some? ==>
              Log(initial, arrivals)[|Log(initial, arrivals)| - 1] == Run(initial, arrivals).cursor.value.signature
  {
    RingIsLog(initial, arrivals);
    hide Run, Log;
  }

  predicate AtOrAfter(cursor: Option<Cursor>, earlier: Option<Cursor>) {
    earlier.Some? ==> cursor.Some? && cursor.value.slot >= earlier.value.slot
  }

  /** The cursor never moves to an earlier slot, neither in memory nor in the store. */
  lemma {:induction false} CursorNeverFallsBack(initial: Option<Cursor>, arrivals: seq<Arrival>, i: nat)
    requires i <= |arrivals|
    ensures AtOrAfter(Run(initial, arrivals).cursor, Run(initial, arrivals[..i]).cursor)
    ensures AtOrAfter(Run(initial, arrivals).stored, Run(initial, arrivals[..i]).stored)
    ensures AtOrAfter(Run(initial, arrivals).cursor, Run(initial, arrivals).stored)
    decreases |arrivals|
  {
    if arrivals != [] {
      var n := |arrivals| - 1;
      if i <= n {
        assert arrivals[..n][..i] == arrivals[..i];
        CursorNeverFallsBack(initial, arrivals[..n], i);
      } else {
        CursorNeverFallsBack(initial, arrivals[..n], n);
        assert arrivals[..i] == arrivals;
      }
    } else {
      assert arrivals[..i] == arrivals;
    }
  }

  /** What each fate says about the transaction: applied and duplicate ones are in the log, a late
      one arrived when a later slot had already been applied, and only an unhandled one fails. */
  lemma FatesMean(initial: Option<Cursor>, arrivals: seq<Arrival>, i: nat)
    requires i < |arrivals|
    ensures var a, before, fate := arrivals[i], Run(initial, arrivals[..i]), Fate(initial, arrivals, i);
            && (fate.Applied? ==> a.handled && Log(initial, arrivals[..i + 1]) == Log(initial, arrivals[..i]) + [a.signature])
            && (fate.Duplicate? ==> a.signature in Log(initial, arrivals[..i]))
            && (fate.Late? <==> before.cursor.Some? && a.slot < before.cursor.value.slot)
            && (fate.Failed? <==> !Behind(before, a) && !a.handled)
            && (!fate.Applied? ==> Run(initial, arrivals[..i + 1]) == before)
  {
    RecentIsLast(initial, arrivals[..i]);
    assert arrivals[..i + 1][..i] == arrivals[..i];
  }

  // Arrival `i` was applied and its cursor save went through.
  predicate Saved(initial: Option<Cursor>, arrivals: seq<Arrival>, i: nat)
    requires i < |arrivals|
  {
    Fate(initial, arrivals, i).Applied? && arrivals[i].saved
  }

  predicate LastApplied(initial: Option<Cursor>, arrivals: seq<Arrival>, i: nat) {
    && i < |arrivals| && Fate(initial, arrivals, i).Applied?
    && forall j :: i < j < |arrivals| ==> !Fate(initial, arrivals, j).Applied?
  }

  predicate LastSaved(initial: Option<Cursor>, arrivals: seq<Arrival>, i: nat) {
    && i < |arrivals| && Saved(initial, arrivals, i)
    && forall j :: i < j < |arrivals| ==> !Saved(initial, arrivals, j)
  }

  // The position a cursor names is that of arrival `i`.
  predicate Names(cursor: Option<Cursor>, arrivals: seq<Arrival>, i: nat) {
    i < |arrivals| && cursor.Some? && cursor.value.signature == arrivals[i].signature && cursor.value.slot == arrivals[i].slot
  }

  // What an earlier arrival came to does not depend on the last one.
  lemma FateBefore(initial: Option<Cursor>, arrivals: seq<Arrival>, i: nat)
    requires i + 1 < |arrivals|
    ensures var init := arrivals[..|arrivals| - 1];
            init[i] == arrivals[i] && Fate(initial, init, i) == Fate(initial, arrivals, i)
  {
    assert arrivals[..|arrivals| - 1][..i] == arrivals[..i];
  }

  // The last arrival moves cursor and store, or leaves the process as it was.
  lemma LastMoves(initial: Option<Cursor>, arrivals: seq<Arrival>)
    requires arrivals != []
    ensures var n := |arrivals| - 1;
            var before, after := Run(initial, arrivals[..n]), Run(initial, arrivals);
            if Fate(initial, arrivals, n).Applied? then
              && Names(after.cursor, arrivals, n)
              && if arrivals[n].saved then Names(after.stored, arrivals, n) else after.stored == before.stored
            else after == before
  {
  }

  predicate NeverApplied(initial: Option<Cursor>, arrivals: seq<Arrival>) {
    forall i: nat :: i < |arrivals| ==> !Fate(initial, arrivals, i).Applied?
  }

  predicate NeverSaved(initial: Option<Cursor>, arrivals: seq<Arrival>) {
    forall i: nat :: i < |arrivals| ==> !Saved(initial, arrivals, i)
  }

  // The last one so far stays the last when the arrival that follows does not count.
  lemma StillLastApplied(initial: Option<Cursor>, arrivals: seq<Arrival>, i: nat)
    requires arrivals != [] && !Fate(initial, arrivals, |arrivals| - 1).Applied?
    ensures var init := arrivals[..|arrivals| - 1];
            && (LastApplied(initial, init, i) ==> LastApplied(initial, arrivals, i))
            && (NeverApplied(initial, init) ==> NeverApplied(initial, arrivals))
  {
    hide Fate;
    var n := |arrivals| - 1;
    forall j: nat | j < n ensures Fate(initial, arrivals[..n], j) == Fate(initial, arrivals, j) {
      FateBefore(initial, arrivals, j);
    }
  }

  lemma StillLastSaved(initial: Option<Cursor>, arrivals: seq<Arrival>, i: nat)
    requires arrivals != [] && !Saved(initial, arrivals, |arrivals| - 1)
    ensures var init := arrivals[..|arrivals| - 1];
            && (LastSaved(initial, init, i) ==> LastSaved(initial, arrivals, i))
            && (NeverSaved(initial, init) ==> NeverSaved(initial, arrivals))
  {
    hide Fate;
    var n := |arrivals| - 1;
    forall j: nat | j < n ensures Saved(initial, arrivals[..n], j) == Saved(initial, arrivals, j) {
      FateBefore(initial, arrivals, j);
    }
    hide Saved;
  }

  /** The cursor in memory names the last arrival that was applied; before the first, it is the one
      the process started with. */
  lemma {:induction false} CursorIsLastApplied(initial: Option<Cursor>, arrivals: seq<Arrival>)
    ensures || (Run(initial, arrivals).cursor == initial && NeverApplied(initial, arrivals))
            || exists i :: LastApplied(initial, arrivals, i) && Names(Run(initial, arrivals).cursor, arrivals, i)
    decreases |arrivals|
  {
    assert Run(initial, []).cursor == initial;
    hide Run, Fate;
    if arrivals != [] {
      var n := |arrivals| - 1;
      var init := arrivals[..n];
      LastMoves(initial, arrivals);
      CursorIsLastApplied(initial, init);
      var i: nat :| NeverApplied(initial, init) || (LastApplied(initial, init, i) && Names(Run(initial, init).cursor, init, i));
      if !Fate(initial, arrivals, n).Applied? {
        StillLastApplied(initial, arrivals, i);
      } else {
        assert LastApplied(initial, arrivals, n);
      }
    }
  }

  /** The store holds the last arrival that was applied and whose save went through; as long as there
      is none, what the process found in it. */
  lemma {:induction false} StoredIsLastSaved(initial: Option<Cursor>, arrivals: seq<Arrival>)
    ensures || (Run(initial, arrivals).stored == initial && NeverSaved(initial, arrivals))
            || exists i :: LastSaved(initial, arrivals, i) && Names(Run(initial, arrivals).stored, arrivals, i)
    decreases |arrivals|
  {
    assert Run(initial, []).stored == initial;
    hide Run, Fate;
    if arrivals != [] {
      var n := |arrivals| - 1;
      var init := arrivals[..n];
      LastMoves(initial, arrivals);
      StoredIsLastSaved(initial, init);
      var i: nat :| NeverSaved(initial, init) || (LastSaved(initial, init, i) && Names(Run(initial, init).stored, init, i));
      if !Saved(initial, arrivals, n) {
        StillLastSaved(initial, arrivals, i);
      } else {
        assert LastSaved(initial, arrivals, n);
      }
    }
  }

  /** When no save of the process fails, the next process resumes where this one stopped. */
  lemma StoredIsCursor(initial: Option<Cursor>, arrivals: seq<Arrival>)
    requires forall i: nat :: i < |arrivals| && Fate(initial, arrivals, i).Applied? ==> arrivals[i].saved
    ensures Run(initial, arrivals).stored == Run(initial, arrivals).cursor
  {
    CursorIsLastApplied(initial, arrivals);
    StoredIsLastSaved(initial, arrivals);
    hide Run, Fate;
    assert forall i: nat :: i < |arrivals| ==> (Saved(initial, arrivals, i) <==> Fate(initial, arrivals, i).Applied?);
    assert forall i, j :: LastApplied(initial, arrivals, i) && LastSaved(initial, arrivals, j) ==> i == j;
  }

  // Signatures have slots, and no slot holds more program transactions than the ring remembers.
  ghost function InSlot(slotOf: Signature -> int, chain: set<Signature>, slot: int): set<Signature> {
    set sig | sig in chain && slotOf(sig) == slot
  }

  ghost predicate Fits(slotOf: Signature -> int, chain: set<Signature>) {
    forall slot :: |InSlot(slotOf, chain, slot)| <= 256
  }

  ghost predicate OnChain(slotOf: Signature -> int, chain: set<Signature>, initial: Option<Cursor>, arrivals: seq<Arrival>) {
    && (initial.Some? ==> initial.value.signature in chain && slotOf(initial.value.signature) == initial.value.slot)
    && (forall i :: 0 <= i < |arrivals| ==> arrivals[i].signature in chain && slotOf(arrivals[i].signature) == arrivals[i].slot)
  }

  ghost predicate Climbs(slotOf: Signature -> int, log: seq<Signature>) {
    forall i, j :: 0 <= i < j < |log| ==> slotOf(log[i]) <= slotOf(log[j])
  }

  ghost predicate Distinct(log: seq<Signature>) {
    forall i, j :: 0 <= i < j < |log| ==> log[i] != log[j]
  }

  lemma ClimbsOn(slotOf: Signature -> int, log: seq<Signature>, sig: Signature)
    requires Climbs(slotOf, log) && (log != [] ==> slotOf(log[|log| - 1]) <= slotOf(sig))
    ensures Climbs(slotOf, log + [sig])
  {
  }

  // One more arrival.
  lemma OneMore(initial: Option<Cursor>, arrivals: seq<Arrival>, a: Arrival)
    ensures Run(initial, arrivals + [a]) == Process(Run(initial, arrivals), a).0
    ensures AppliedOf(initial, arrivals + [a])
            == if Process(Run(initial, arrivals), a).1.Applied? then AppliedOf(initial, arrivals) + [a.signature]
               else AppliedOf(initial, arrivals)
  {
    var all := arrivals + [a];
    assert all[..|all| - 1] == arrivals && all[|all| - 1] == a;
  }

  lemma LogNext(initial: Option<Cursor>, arrivals: seq<Arrival>)
    requires arrivals != []
    ensures var n := |arrivals| - 1;
            Log(initial, arrivals)
            == Log(initial, arrivals[..n]) + if Fate(initial, arrivals, n).Applied? then [arrivals[n].signature] else []
  {
  }

  lemma {:induction false} LogStaysOnChain(slotOf: Signature -> int, chain: set<Signature>, initial: Option<Cursor>, arrivals: seq<Arrival>)
    requires OnChain(slotOf, chain, initial, arrivals)
    ensures forall sig :: sig in Log(initial, arrivals) ==> sig in chain
    ensures var s := Run(initial, arrivals);
            s.cursor.Some? ==> slotOf(s.cursor.value.signature) == s.cursor.value.slot
    decreases |arrivals|
  {
    if arrivals != [] {
      LogStaysOnChain(slotOf, chain, initial, arrivals[..|arrivals| - 1]);
      LogNext(initial, arrivals);
    }
  }

  // What is applied next does not lie below the log.
  lemma LogClimbsOn(slotOf: Signature -> int, initial: Option<Cursor>, arrivals: seq<Arrival>, a: Arrival)
    requires Climbs(slotOf, Log(initial, arrivals)) && slotOf(a.signature) == a.slot
    requires var s := Run(initial, arrivals);
             s.cursor.Some? ==> slotOf(s.cursor.value.signature) == s.cursor.value.slot
    requires !Behind(Run(initial, arrivals), a)
    ensures Climbs(slotOf, Log(initial, arrivals) + [a.signature])
  {
    RecentIsLast(initial, arrivals);
    ClimbsOn(slotOf, Log(initial, arrivals), a.signature);
  }

  lemma {:induction false} LogClimbs(slotOf: Signature -> int, chain: set<Signature>, initial: Option<Cursor>, arrivals: seq<Arrival>)
    requires OnChain(slotOf, chain, initial, arrivals)
    ensures Climbs(slotOf, Log(initial, arrivals))
    decreases |arrivals|
  {
    if arrivals != [] {
      var n := |arrivals| - 1;
      LogClimbs(slotOf, chain, initial, arrivals[..n]);
      LogStaysOnChain(slotOf, chain, initial, arrivals[..n]);
      LogNext(initial, arrivals);
      if Fate(initial, arrivals, n).Applied? {
        LogClimbsOn(slotOf, initial, arrivals[..n], arrivals[n]);
      }
    }
  }

  // A signature of the cursor's slot that is anywhere in the log is still in the ring.
  lemma StillRemembered(slotOf: Signature -> int, chain: set<Signature>, log: seq<Signature>, p: nat)
    requires Fits(slotOf, chain) && Climbs(slotOf, log) && Distinct(log)
    requires forall sig :: sig in log ==> sig in chain
    requires p < |log| && slotOf(log[p]) == slotOf(log[|log| - 1])
    ensures log[p] in Last(log, RECENT_SIGNATURES)
  {
    var slot := slotOf(log[p]);
    var siblings := InSlot(slotOf, chain, slot);
    var tail := log[p..];
    forall i | 0 <= i < |tail| ensures tail[i] in siblings {
      assert tail[i] == log[p + i];
    }
    DistinctFits(tail, siblings);
    assert |log| - p <= RECENT_SIGNATURES;
    if |log| > RECENT_SIGNATURES {
      assert log[|log| - RECENT_SIGNATURES..][p - (|log| - RECENT_SIGNATURES)] == log[p];
    }
  }

  /** What is not behind the cursor has not been applied by this process. */
  lemma NotBehindIsNew(slotOf: Signature -> int, chain: set<Signature>, initial: Option<Cursor>, arrivals: seq<Arrival>, a: Arrival)
    requires Fits(slotOf, chain) && OnChain(slotOf, chain, initial, arrivals)
    requires slotOf(a.signature) == a.slot && Distinct(Log(initial, arrivals))
    requires !Behind(Run(initial, arrivals), a)
    ensures a.signature !in Log(initial, arrivals)
  {
    var log := Log(initial, arrivals);
    LogClimbs(slotOf, chain, initial, arrivals);
    LogStaysOnChain(slotOf, chain, initial, arrivals);
    RecentIsLast(initial, arrivals);
    forall p | 0 <= p < |log| && slotOf(log[p]) == slotOf(log[|log| - 1]) ensures log[p] != a.signature {
      StillRemembered(slotOf, chain, log, p);
    }
  }

  /** Nothing is applied twice in one process, as long as no slot holds more than 256 transactions. */
  lemma {:induction false} AppliedOnce(slotOf: Signature -> int, chain: set<Signature>, initial: Option<Cursor>, arrivals: seq<Arrival>)
    requires Fits(slotOf, chain) && OnChain(slotOf, chain, initial, arrivals)
    ensures Distinct(Log(initial, arrivals))
    decreases |arrivals|
  {
    if arrivals != [] {
      var n := |arrivals| - 1;
      AppliedOnce(slotOf, chain, initial, arrivals[..n]);
      if Fate(initial, arrivals, n).Applied? {
        NotBehindIsNew(slotOf, chain, initial, arrivals[..n], arrivals[n]);
        assert Log(initial, arrivals) == Log(initial, arrivals[..n]) + [arrivals[n].signature];
      } else {
        assert Log(initial, arrivals) == Log(initial, arrivals[..n]);
      }
    }
  }

  predicate Repeats(initial: Option<Cursor>, before: seq<Signature>, sig: Signature) {
    sig in before || (initial.Some? && sig == initial.value.signature)
  }

  // The arrivals without repetitions, the cursor's own included, in order of their first arrival.
  function FirstArrivals(initial: Option<Cursor>, arrivals: seq<Arrival>): seq<Signature> {
    if arrivals == [] then []
    else
      var n := |arrivals| - 1;
      var before := FirstArrivals(initial, arrivals[..n]);
      if Repeats(initial, before, arrivals[n].signature) then before else before + [arrivals[n].signature]
  }

  // What has been applied is recognised, and what first arrives at or above the last slot is new.
  lemma NextIsBehindIffKnown(slotOf: Signature -> int, chain: set<Signature>, initial: Option<Cursor>, arrivals: seq<Arrival>, a: Arrival)
    requires Fits(slotOf, chain) && OnChain(slotOf, chain, initial, arrivals) && slotOf(a.signature) == a.slot
    requires var log := Log(initial, arrivals);
             a.signature in log || (log != [] ==> slotOf(log[|log| - 1]) <= a.slot)
    ensures Behind(Run(initial, arrivals), a) <==> a.signature in Log(initial, arrivals)
  {
    AppliedOnce(slotOf, chain, initial, arrivals);
    LogClimbs(slotOf, chain, initial, arrivals);
    LogStaysOnChain(slotOf, chain, initial, arrivals);
    RecentIsLast(initial, arrivals);
    if !Behind(Run(initial, arrivals), a) {
      NotBehindIsNew(slotOf, chain, initial, arrivals, a);
    }
  }

  // A new arrival does not lie below the last applied one.
  lemma NextClimbs(slotOf: Signature -> int, initial: Option<Cursor>, before: seq<Signature>, a: Arrival)
    requires slotOf(a.signature) == a.slot && Climbs(slotOf, before + [a.signature])
    requires initial.Some? ==> slotOf(initial.value.signature) <= a.slot
    ensures var log := (if initial.None? then [] else [initial.value.signature]) + before;
            log != [] ==> slotOf(log[|log| - 1]) <= a.slot
  {
    if before != [] {
      var all := before + [a.signature];
      assert slotOf(all[|before| - 1]) <= slotOf(all[|before|]);
    }
  }

  lemma ClimbsInit(slotOf: Signature -> int, before: seq<Signature>, more: seq<Signature>)
    requires Climbs(slotOf, before + more)
    ensures Climbs(slotOf, before)
  {
    assert forall i :: 0 <= i < |before| ==> (before + more)[i] == before[i];
  }

  // One more arrival of an ideal run is applied exactly when it is new.
  lemma IdealStep(slotOf: Signature -> int, chain: set<Signature>, initial: Option<Cursor>, arrivals: seq<Arrival>,
                  before: seq<Signature>, a: Arrival)
    requires Fits(slotOf, chain) && OnChain(slotOf, chain, initial, arrivals) && slotOf(a.signature) == a.slot
    requires initial.Some? ==> initial.value.slot <= a.slot
    requires before == AppliedOf(initial, arrivals)
    requires Repeats(initial, before, a.signature) || Climbs(slotOf, before + [a.signature])
    ensures Behind(Run(initial, arrivals), a) <==> Repeats(initial, before, a.signature)
  {
    if !Repeats(initial, before, a.signature) {
      NextClimbs(slotOf, initial, before, a);
    }
    NextIsBehindIffKnown(slotOf, chain, initial, arrivals, a);
  }

  lemma OnChainBefore(slotOf: Signature -> int, chain: set<Signature>, initial: Option<Cursor>, arrivals: seq<Arrival>, a: Arrival)
    requires OnChain(slotOf, chain, initial, arrivals + [a])
    ensures OnChain(slotOf, chain, initial, arrivals) && slotOf(a.signature) == a.slot
  {
    assert (arrivals + [a])[|arrivals|] == a;
    assert forall i :: 0 <= i < |arrivals| ==> arrivals[i] == (arrivals + [a])[i];
  }

  /** The ideal run: when no handler fails and transactions first arrive in slot order, from the slot
      of the cursor on, the worker applies exactly the arrivals without repetitions, in that order. */
  lemma {:induction false} AppliesFirstArrivals(slotOf: Signature -> int, chain: set<Signature>, initial: Option<Cursor>, arrivals: seq<Arrival>)
    requires Fits(slotOf, chain) && OnChain(slotOf, chain, initial, arrivals)
    requires forall i :: 0 <= i < |arrivals| ==> arrivals[i].handled
    requires Climbs(slotOf, FirstArrivals(initial, arrivals))
    requires initial.Some? ==> forall i :: 0 <= i < |arrivals| ==> arrivals[i].slot >= initial.value.slot
    ensures AppliedOf(initial, arrivals) == FirstArrivals(initial, arrivals)
    decreases |arrivals|
  {
    if arrivals != [] {
      hide AppliedOf, Run, Log, OnChain, Fits, Climbs;
      var init, a := arrivals[..|arrivals| - 1], arrivals[|arrivals| - 1];
      var before := FirstArrivals(initial, init);
      assert init + [a] == arrivals;
      OnChainBefore(slotOf, chain, initial, init, a);
      if !Repeats(initial, before, a.signature) {
        ClimbsInit(slotOf, before, [a.signature]);
      }
      AppliesFirstArrivals(slotOf, chain, initial, init);
      IdealStep(slotOf, chain, initial, init, before, a);
      OneMore(initial, init, a);
    }
  }

  // New transactions in chain order.
  predicate InOrder(initial: Option<Cursor>, arrivals: seq<Arrival>) {
    && (forall i, j :: 0 <= i < j < |arrivals| ==>
          arrivals[i].signature != arrivals[j].signature && arrivals[i].slot <= arrivals[j].slot)
    && (initial.Some? ==> forall i :: 0 <= i < |arrivals| ==>
          arrivals[i].signature != initial.value.signature && arrivals[i].slot >= initial.value.slot)
  }

  // The cursor that points at the last transaction whose handler succeeded.
  function LastHandled(initial: Option<Cursor>, arrivals: seq<Arrival>): Option<Cursor> {
    if arrivals == [] then initial
    else
      var a := arrivals[|arrivals| - 1];
      if a.handled then Some(Cursor(a.signature, a.slot)) else LastHandled(initial, arrivals[..|arrivals| - 1])
  }

  ghost function Known(initial: Option<Cursor>, arrivals: seq<Arrival>): set<Signature> {
    (if initial.None? then {} else {initial.value.signature}) + set a | a in arrivals :: a.signature
  }

  lemma {:induction false} LogIsKnown(initial: Option<Cursor>, arrivals: seq<Arrival>)
    ensures forall sig :: sig in Log(initial, arrivals) ==> sig in Known(initial, arrivals)
    decreases |arrivals|
  {
    if arrivals != [] {
      var n := |arrivals| - 1;
      LogIsKnown(initial, arrivals[..n]);
      LogNext(initial, arrivals);
      assert arrivals[n] in arrivals;
      assert forall a :: a in arrivals[..n] ==> a in arrivals;
    }
  }

  lemma {:induction false} LastHandledIsEarlier(initial: Option<Cursor>, arrivals: seq<Arrival>)
    requires InOrder(initial, arrivals)
    ensures LastHandled(initial, arrivals) != initial ==>
              exists i :: 0 <= i < |arrivals| && LastHandled(initial, arrivals) == Some(Cursor(arrivals[i].signature, arrivals[i].slot))
    decreases |arrivals|
  {
    if arrivals != [] {
      var n := |arrivals| - 1;
      if arrivals[n].handled {
        assert LastHandled(initial, arrivals) == Some(Cursor(arrivals[n].signature, arrivals[n].slot));
      } else {
        InOrderInit(initial, arrivals, n);
        LastHandledIsEarlier(initial, arrivals[..n]);
        if i :| 0 <= i < n && LastHandled(initial, arrivals) == Some(Cursor(arrivals[..n][i].signature, arrivals[..n][i].slot)) {
          assert LastHandled(initial, arrivals) == Some(Cursor(arrivals[i].signature, arrivals[i].slot));
        }
      }
    }
  }

  lemma InOrderInit(initial: Option<Cursor>, arrivals: seq<Arrival>, n: nat)
    requires InOrder(initial, arrivals) && n <= |arrivals|
    ensures InOrder(initial, arrivals[..n])
  {
    assert forall i :: 0 <= i < n ==> arrivals[..n][i] == arrivals[i];
  }

  // A new transaction in chain order is not behind the cursor.
  lemma NewIsNotBehind(initial: Option<Cursor>, arrivals: seq<Arrival>)
    requires InOrder(initial, arrivals) && arrivals != []
    requires Run(initial, arrivals[..|arrivals| - 1]).cursor == LastHandled(initial, arrivals[..|arrivals| - 1])
    ensures !Behind(Run(initial, arrivals[..|arrivals| - 1]), arrivals[|arrivals| - 1])
  {
    var n := |arrivals| - 1;
    var init, a := arrivals[..n], arrivals[n];
    InOrderInit(initial, arrivals, n);
    LastHandledIsEarlier(initial, init);
    RecentIsLast(initial, init);
    LogIsKnown(initial, init);
    forall b | b in init ensures b.signature != a.signature && b.slot <= a.slot {
      var i :| 0 <= i < n && init[i] == b;
      assert arrivals[i] == b;
    }
    assert a.signature !in Known(initial, init);
    assert forall sig :: sig in Run(initial, init).recent ==> sig in Log(initial, init);
    if LastHandled(initial, init) != initial {
      var i :| 0 <= i < n && LastHandled(initial, init) == Some(Cursor(init[i].signature, init[i].slot));
      assert init[i] in init;
    }
  }

  /** In chain order nothing is mistaken for a duplicate: what the handler accepts is applied, and
      the cursor points at the last of it. */
  lemma {:induction false} InOrderAppliesHandled(initial: Option<Cursor>, arrivals: seq<Arrival>, i: nat)
    requires InOrder(initial, arrivals) && i < |arrivals|
    ensures Fate(initial, arrivals, i) == if arrivals[i].handled then Applied else Failed
    ensures Run(initial, arrivals[..i]).cursor == LastHandled(initial, arrivals[..i])
    ensures Run(initial, arrivals[..i + 1]).cursor == LastHandled(initial, arrivals[..i + 1])
    decreases i
  {
    var upTo := arrivals[..i + 1];
    InOrderInit(initial, arrivals, i + 1);
    assert upTo[..i] == arrivals[..i];
    if i > 0 {
      InOrderAppliesHandled(initial, arrivals, i - 1);
    }
    NewIsNotBehind(initial, upTo);
  }

  // Arrival `i` succeeds before any success from a later slot.
  predicate OnTime(initial: Option<Cursor>, arrivals: seq<Arrival>, i: nat)
    requires i < |arrivals|
  {
    && arrivals[i].handled
    && (initial.Some? ==> initial.value.slot <= arrivals[i].slot)
    && forall j :: 0 <= j < i && arrivals[j].handled ==> arrivals[j].slot <= arrivals[i].slot
  }

  // The cursor's own transaction, or one that succeeds on time in one of its arrivals.
  ghost predicate Caught(initial: Option<Cursor>, arrivals: seq<Arrival>, sig: Signature) {
    || (initial.Some? && initial.value.signature == sig)
    || exists i :: 0 <= i < |arrivals| && arrivals[i].signature == sig && OnTime(initial, arrivals, i)
  }

  // Something from a later slot has been handled.
  ghost predicate Overtaken(initial: Option<Cursor>, arrivals: seq<Arrival>, slot: nat) {
    || (initial.Some? && slot < initial.value.slot)
    || exists j :: 0 <= j < |arrivals| && arrivals[j].handled && slot < arrivals[j].slot
  }

  /** Where the cursor stands after any arrivals: past a slot exactly when something later was handled,
      whatever was skipped, failed or repeated. */
  lemma {:induction false} PastIffOvertaken(initial: Option<Cursor>, arrivals: seq<Arrival>, slot: nat)
    ensures var cursor := Run(initial, arrivals).cursor;
            cursor.Some? && slot < cursor.value.slot <==> Overtaken(initial, arrivals, slot)
    decreases |arrivals|
  {
    if arrivals != [] {
      var n := |arrivals| - 1;
      PastIffOvertaken(initial, arrivals[..n], slot);
      OvertakenLast(initial, arrivals, slot);
    }
  }

  lemma OvertakenLast(initial: Option<Cursor>, arrivals: seq<Arrival>, slot: nat)
    requires arrivals != []
    ensures var n := |arrivals| - 1;
            Overtaken(initial, arrivals, slot)
            <==> Overtaken(initial, arrivals[..n], slot) || (arrivals[n].handled && slot < arrivals[n].slot)
  {
    var n := |arrivals| - 1;
    if j :| 0 <= j < n && arrivals[..n][j].handled && slot < arrivals[..n][j].slot {
      assert arrivals[j].handled && slot < arrivals[j].slot;
    }
    if j :| 0 <= j <= n && arrivals[j].handled && slot < arrivals[j].slot {
      assert j == n || arrivals[..n][j] == arrivals[j];
    }
  }

  lemma OnTimeLast(initial: Option<Cursor>, arrivals: seq<Arrival>)
    requires arrivals != []
    ensures var n := |arrivals| - 1;
            OnTime(initial, arrivals, n)
            <==> arrivals[n].handled && !Overtaken(initial, arrivals[..n], arrivals[n].slot)
  {
    var n := |arrivals| - 1;
    assert forall j :: 0 <= j < n ==> arrivals[..n][j] == arrivals[j];
  }

  lemma CaughtLast(initial: Option<Cursor>, arrivals: seq<Arrival>, sig: Signature)
    requires arrivals != []
    ensures var n := |arrivals| - 1;
            Caught(initial, arrivals, sig)
            <==> Caught(initial, arrivals[..n], sig) || (arrivals[n].signature == sig && OnTime(initial, arrivals, n))
  {
    var n := |arrivals| - 1;
    assert forall j :: 0 <= j < n ==> arrivals[..n][j] == arrivals[j];
    if i :| 0 <= i < n && arrivals[..n][i].signature == sig && OnTime(initial, arrivals[..n], i) {
      assert arrivals[i].signature == sig && OnTime(initial, arrivals, i);
    }
    if i :| 0 <= i < n && arrivals[i].signature == sig && OnTime(initial, arrivals, i) {
      assert arrivals[..n][i].signature == sig && OnTime(initial, arrivals[..n], i);
    }
  }

  /** Exactly what a process applies, for any arrivals at all, with failures, retries, repetitions,
      disorder and gaps: the transactions that succeed, in some arrival, before any success from a
      later slot. */
  lemma {:induction false} AppliedIff(initial: Option<Cursor>, arrivals: seq<Arrival>, sig: Signature)
    ensures sig in Log(initial, arrivals) <==> Caught(initial, arrivals, sig)
    decreases |arrivals|
  {
    if arrivals != [] {
      var n := |arrivals| - 1;
      var a, before := arrivals[n], Run(initial, arrivals[..n]);
      AppliedIff(initial, arrivals[..n], sig);
      CaughtLast(initial, arrivals, sig);
      OnTimeLast(initial, arrivals);
      PastIffOvertaken(initial, arrivals[..n], a.slot);
      LogNext(initial, arrivals);
      RecentIsLast(initial, arrivals[..n]);
      assert a.signature in before.recent ==> a.signature in Log(initial, arrivals[..n]);
    }
  }

  // The cursor is past the slot of a transaction that was not applied.
  predicate TooLate(initial: Option<Cursor>, arrivals: seq<Arrival>, sig: Signature, slot: nat) {
    var cursor := Run(initial, arrivals).cursor;
    cursor.Some? && slot < cursor.value.slot && sig !in Log(initial, arrivals)
  }

  /** It is too late for a transaction exactly when something from a later slot was handled and no
      arrival of its own was on time. */
  lemma TooLateIff(initial: Option<Cursor>, arrivals: seq<Arrival>, sig: Signature, slot: nat)
    ensures TooLate(initial, arrivals, sig, slot)
            <==> Overtaken(initial, arrivals, slot) && !Caught(initial, arrivals, sig)
  {
    PastIffOvertaken(initial, arrivals, slot);
    AppliedIff(initial, arrivals, sig);
  }

  /** And it stays so: whatever arrives later in this process, it is not applied any more. */
  lemma {:induction false} TooLateForGood(initial: Option<Cursor>, arrivals: seq<Arrival>, more: seq<Arrival>, sig: Signature,
                                          slot: nat)
    requires TooLate(initial, arrivals, sig, slot)
    requires forall i :: 0 <= i < |more| && more[i].signature == sig ==> more[i].slot == slot
    ensures TooLate(initial, arrivals + more, sig, slot)
    decreases |more|
  {
    if more == [] {
      assert arrivals + more == arrivals;
    } else {
      var n := |more| - 1;
      var all := arrivals + more;
      assert all[..|all| - 1] == arrivals + more[..n];
      TooLateForGood(initial, arrivals, more[..n], sig, slot);
      LogNext(initial, all);
      CursorNeverFallsBack(initial, all, |all| - 1);
    }
  }

  /** A failure that is retried before anything later succeeds costs nothing. */
  lemma RetryInTimeIsApplied()
    ensures var b := Arrival("b", 2, false, true);
            var run := [Arrival("a", 1, true, true), b, b.(handled := true), Arrival("c", 3, true, true)];
            forall sig :: sig in ["a", "b", "c"] ==> sig in Log(None, run)
  {
    var b := Arrival("b", 2, false, true);
    var run := [Arrival("a", 1, true, true), b, b.(handled := true), Arrival("c", 3, true, true)];
    assert run[0].signature == "a" && OnTime(None, run, 0);
    assert run[2].signature == "b" && OnTime(None, run, 2);
    assert run[3].signature == "c" && OnTime(None, run, 3);
    AppliedIff(None, run, "a");
    AppliedIff(None, run, "b");
    AppliedIff(None, run, "c");
  }

  // The arrivals that can matter: those whose handler succeeds and that do not lie below the slot the
  // process started from.
  function Counted(initial: Option<Cursor>, arrivals: seq<Arrival>): seq<Arrival> {
    if arrivals == [] then []
    else
      var before, last := Counted(initial, arrivals[..|arrivals| - 1]), arrivals[|arrivals| - 1];
      if Counts(initial, last) then before + [last] else before
  }

  predicate Counts(initial: Option<Cursor>, a: Arrival) {
    a.handled && (initial.Some? ==> initial.value.slot <= a.slot)
  }

  // Both leave the process in the same state, with the same applied.
  predicate SameEffect(initial: Option<Cursor>, arrivals: seq<Arrival>, others: seq<Arrival>) {
    Run(initial, others) == Run(initial, arrivals) && AppliedOf(initial, others) == AppliedOf(initial, arrivals)
  }

  lemma StayTogether(initial: Option<Cursor>, arrivals: seq<Arrival>, others: seq<Arrival>, a: Arrival)
    requires SameEffect(initial, arrivals, others)
    ensures SameEffect(initial, arrivals + [a], if Counts(initial, a) then others + [a] else others)
  {
    OneMore(initial, arrivals, a);
    OneMore(initial, others, a);
    CursorNeverFallsBack(initial, arrivals, 0);
  }

  lemma CountedMore(initial: Option<Cursor>, arrivals: seq<Arrival>, a: Arrival)
    ensures Counted(initial, arrivals + [a])
            == if Counts(initial, a) then Counted(initial, arrivals) + [a] else Counted(initial, arrivals)
  {
    var all := arrivals + [a];
    assert all[..|all| - 1] == arrivals;
  }

  /** A failing handler and a transaction from below the starting slot change nothing: neither the
      cursor, nor the store, nor what is applied. */
  lemma {:induction false} OthersChangeNothing(initial: Option<Cursor>, arrivals: seq<Arrival>)
    ensures SameEffect(initial, arrivals, Counted(initial, arrivals))
    decreases |arrivals|
  {
    if arrivals != [] {
      var init, last := arrivals[..|arrivals| - 1], arrivals[|arrivals| - 1];
      OthersChangeNothing(initial, init);
      StayTogether(initial, init, Counted(initial, init), last);
      CountedMore(initial, init, last);
      assert init + [last] == arrivals;
    }
  }
}
