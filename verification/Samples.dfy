/** A small history for runs that show where a promise ends. */
module Samples {
  import opened Common
  import Program
  import Logs
  import opened Runs
  import opened Ledger
  import opened Indexer
  import opened History

  // Five transactions that do nothing, three of them in one slot.
  function Quiet(sig: Signature, slot: u64): Tx { Tx(sig, Program.Clock(slot, 0), None, [], [], Logs.End) }

  const FIVE: seq<Tx> := [Quiet("a", 1), Quiet("b", 2), Quiet("c", 2), Quiet("d", 2), Quiet("e", 3)]

  function Heard(place: nat, handled: bool): Arrival
    requires place < |FIVE|
  {
    Arrival(FIVE[place].signature, FIVE[place].clock.slot, handled, true)
  }

  lemma FiveAreDistinct()
    ensures DistinctSignatures(FIVE)
  {
    assert FIVE[0].signature[0] == 'a' && FIVE[1].signature[0] == 'b' && FIVE[2].signature[0] == 'c';
    assert FIVE[3].signature[0] == 'd' && FIVE[4].signature[0] == 'e';
  }

  lemma {:induction false} FewSignatures(history: seq<Tx>)
    requires DistinctSignatures(history)
    ensures |Signatures(history)| <= |history|
    decreases |history|
  {
    if history != [] {
      FewSignatures(history[..|history| - 1]);
      SignaturesGrow(history);
    }
  }

  lemma FiveClimb()
    ensures forall i, j :: 0 <= i < j < |FIVE| ==> FIVE[i].clock.slot <= FIVE[j].clock.slot
  {
    assert FIVE[0].clock.slot == 1 && FIVE[1].clock.slot == FIVE[2].clock.slot == FIVE[3].clock.slot == 2;
    assert FIVE[4].clock.slot == 3;
  }

  lemma FiveAreConfirmed()
    ensures Confirmed(FIVE)
  {
    FiveAreDistinct();
    FiveClimb();
    FewSignatures(FIVE);
    hide DistinctSignatures, SlotIn, Signatures;
    forall slot ensures |InSlot(SlotIn(FIVE), Signatures(FIVE), slot)| <= RECENT_SIGNATURES {
      SubsetSize(InSlot(SlotIn(FIVE), Signatures(FIVE), slot), Signatures(FIVE));
    }
  }

  lemma HeardIsOfHistory(place: nat, handled: bool)
    requires place < |FIVE|
    ensures OfHistory(FIVE, Heard(place, handled)) && PlaceOf(FIVE, Heard(place, handled).signature) == place
  {
    FiveAreDistinct();
    PlaceIs(FIVE, place);
  }

  // Arrivals of the sample: places in the chain, each with the word of its handler.
  function Hear(places: seq<nat>, handled: seq<bool>): (arrivals: seq<Arrival>)
    requires |places| == |handled| && forall i :: 0 <= i < |places| ==> places[i] < |FIVE|
  {
    seq(|places|, i requires 0 <= i < |places| => Heard(places[i], handled[i]))
  }

  lemma HearIsOfHistory(places: seq<nat>, handled: seq<bool>)
    requires |places| == |handled| && forall i :: 0 <= i < |places| ==> places[i] < |FIVE|
    ensures AllOfHistory(FIVE, Hear(places, handled))
    ensures forall i :: 0 <= i < |places| ==> PlaceOf(FIVE, Hear(places, handled)[i].signature) == places[i]
  {
    forall i | 0 <= i < |places|
      ensures OfHistory(FIVE, Hear(places, handled)[i]) && PlaceOf(FIVE, Hear(places, handled)[i].signature) == places[i]
    {
      HeardIsOfHistory(places[i], handled[i]);
    }
  }
}
