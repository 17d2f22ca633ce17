/** Replay convergence: the index forgets how often, and after how many crashes, a transaction was
    applied. A worker that always resumes at or before the point it had reached, and ends at the
    tip, ends with the index of the undisturbed history. */
module Replay {
  import opened Common
  import opened Program
  import opened Tables
  import opened Refinement
  import opened Walks

  function KeyOf(row: PledgeRow): PledgeKey { PledgeKey(row.creator, row.supporter) }

  // What one write says about one row.
  function ProfileOf(w: Address): Write -> Option<CreatorRow> {
    (write: Write) => if write.UpsertCreator? && write.creator.wallet == w then Some(write.creator) else None
  }

  function SnapshotOf(k: PledgeKey): Write -> Option<PledgeRow> {
    (write: Write) => if write.UpsertPledge? && KeyOf(write.pledge) == k then Some(write.pledge) else None
  }

  function FlagOf(k: PledgeKey): Write -> Option<bool> {
    (write: Write) =>
      if write.UpsertPledge? && KeyOf(write.pledge) == k then Some(write.pledge.showPublicly)
      else if write.UpdateVisibility? && write.key == k then Some(write.showPublicly)
      else None
  }

  function RecordOf(sig: Signature): Write -> Option<ContributionRow> {
    (write: Write) =>
      if write.InsertContribution? && write.contribution.sig == sig then Some(write.contribution) else None
  }

  // Each row in terms of first and last writes.
  ghost predicate CreatorsAre(ws: seq<Write>, rows: map<Address, CreatorRow>) {
    forall w ::
      && (w in rows <==> FirstOf(ProfileOf(w), ws).Some?)
      && (w in rows ==> LastOf(ProfileOf(w), ws).Some?
                        && rows[w] == RefreshedCreator(FirstOf(ProfileOf(w), ws).value, LastOf(ProfileOf(w), ws).value))
  }

  ghost predicate PledgesAre(ws: seq<Write>, rows: map<PledgeKey, PledgeRow>) {
    forall k ::
      && (k in rows <==> FirstOf(SnapshotOf(k), ws).Some?)
      && (k in rows ==> LastOf(SnapshotOf(k), ws).Some? && LastOf(FlagOf(k), ws).Some?
                        && rows[k] == LastOf(SnapshotOf(k), ws).value.(showPublicly := LastOf(FlagOf(k), ws).value))
  }

  ghost predicate ContributionsAre(ws: seq<Write>, rows: map<Signature, ContributionRow>) {
    forall sig ::
      && (sig in rows <==> FirstOf(RecordOf(sig), ws).Some?)
      && (sig in rows ==> rows[sig] == FirstOf(RecordOf(sig), ws).value)
  }

  ghost predicate Describes(ws: seq<Write>, ix: Index) {
    && CreatorsAre(ws, ix.creators)
    && PledgesAre(ws, ix.pledges)
    && ContributionsAre(ws, ix.contributions)
  }

  lemma CreatorsStep(ws: seq<Write>, ix: Index, write: Write, next: Index)
    requires CreatorsAre(ws, ix.creators) && ApplyWrite(ix, write) == Ok(next)
    ensures CreatorsAre(ws + [write], next.creators)
  {
    hide FirstOf, LastOf;
    forall w
      ensures w in next.creators <==> FirstOf(ProfileOf(w), ws + [write]).Some?
      ensures w in next.creators ==>
                LastOf(ProfileOf(w), ws + [write]).Some?
                && next.creators[w] == RefreshedCreator(FirstOf(ProfileOf(w), ws + [write]).value,
                                                        LastOf(ProfileOf(w), ws + [write]).value)
    {
      FirstOfSnoc(ProfileOf(w), ws, write);
    }
  }

  lemma PledgesStep(ws: seq<Write>, ix: Index, write: Write, next: Index)
    requires PledgesAre(ws, ix.pledges) && ApplyWrite(ix, write) == Ok(next)
    ensures PledgesAre(ws + [write], next.pledges)
  {
    forall k
      ensures k in next.pledges <==> FirstOf(SnapshotOf(k), ws + [write]).Some?
      ensures k in next.pledges ==>
                LastOf(SnapshotOf(k), ws + [write]).Some? && LastOf(FlagOf(k), ws + [write]).Some?
                && next.pledges[k] == LastOf(SnapshotOf(k), ws + [write]).value.(
                                        showPublicly := LastOf(FlagOf(k), ws + [write]).value)
    {
      FirstOfSnoc(SnapshotOf(k), ws, write);
      FirstOfSnoc(FlagOf(k), ws, write);
    }
  }

  lemma ContributionsStep(ws: seq<Write>, ix: Index, write: Write, next: Index)
    requires ContributionsAre(ws, ix.contributions) && ApplyWrite(ix, write) == Ok(next)
    ensures ContributionsAre(ws + [write], next.contributions)
  {
    forall sig
      ensures sig in next.contributions <==> FirstOf(RecordOf(sig), ws + [write]).Some?
      ensures sig in next.contributions ==> next.contributions[sig] == FirstOf(RecordOf(sig), ws + [write]).value
    {
      FirstOfSnoc(RecordOf(sig), ws, write);
    }
  }

  lemma ApplyLast(ws: seq<Write>, write: Write)
    ensures ApplyWrites(EMPTY, ws + [write])
            == match ApplyWrites(EMPTY, ws) case Err(e) => Err(e) case Ok(ix) => ApplyWrite(ix, write)
  {
    ApplyAppend(EMPTY, ws, [write]);
    if ApplyWrites(EMPTY, ws).Ok? {
      OneWrite(ApplyWrites(EMPTY, ws).value, write);
    }
  }

  /** An index built from nothing is determined by the first and the last write of every row. */
  lemma {:induction false} Described(ws: seq<Write>)
    requires ApplyWrites(EMPTY, ws).Ok?
    ensures Describes(ws, ApplyWrites(EMPTY, ws).value)
    decreases |ws|
  {
    if ws != [] {
      var init, write := ws[..|ws| - 1], ws[|ws| - 1];
      assert ws == init + [write];
      ApplyLast(init, write);
      Described(init);
      var ix, next := ApplyWrites(EMPTY, init).value, ApplyWrites(EMPTY, ws).value;
      CreatorsStep(init, ix, write, next);
      PledgesStep(init, ix, write, next);
      ContributionsStep(init, ix, write, next);
    }
  }

  lemma {:induction false} PrefixOk(ws: seq<Write>, q: nat)
    requires q <= |ws| && ApplyWrites(EMPTY, ws).Ok?
    ensures ApplyWrites(EMPTY, ws[..q]).Ok?
  {
    ApplyAppend(EMPTY, ws[..q], ws[q..]);
    assert ws[..q] + ws[q..] == ws;
  }

  // The rows a prefix has are there, under the same handles, once a walk has covered the prefix.
  lemma RowsCovered(ws: seq<Write>, positions: seq<nat>, q: nat)
    requires Walk(positions, |ws|) && q <= Covered(positions) <= |ws|
    requires ApplyWrites(EMPTY, ws).Ok? && ApplyWrites(EMPTY, Seen(ws, positions)).Ok?
    ensures ApplyWrites(EMPTY, ws[..q]).Ok?
    ensures var there, here := ApplyWrites(EMPTY, ws[..q]).value, ApplyWrites(EMPTY, Seen(ws, positions)).value;
            && there.creators.Keys <= here.creators.Keys
            && there.pledges.Keys <= here.pledges.Keys
            && there.contributions.Keys <= here.contributions.Keys
            && (q == Covered(positions) ==> SameHandles(there, here))
  {
    var seen, prefix := Seen(ws, positions), ws[..q];
    PrefixOk(ws, q);
    Described(seen);
    Described(prefix);
    var there, here := ApplyWrites(EMPTY, prefix).value, ApplyWrites(EMPTY, seen).value;
    var covered := ws[..Covered(positions)];
    assert covered[..q] == prefix;
    forall w | w in there.creators ensures w in here.creators {
      FirstSeen(ProfileOf(w), ws, positions);
      FirstOfPrefix(ProfileOf(w), covered, q);
    }
    forall k | k in there.pledges ensures k in here.pledges {
      FirstSeen(SnapshotOf(k), ws, positions);
      FirstOfPrefix(SnapshotOf(k), covered, q);
    }
    forall sig | sig in there.contributions ensures sig in here.contributions {
      FirstSeen(RecordOf(sig), ws, positions);
      FirstOfPrefix(RecordOf(sig), covered, q);
    }
    if q == Covered(positions) {
      forall w
        ensures w in there.creators <==> w in here.creators
        ensures w in there.creators ==> there.creators[w].handle == here.creators[w].handle
      {
        FirstSeen(ProfileOf(w), ws, positions);
      }
    }
  }

  ghost predicate SameHandles(there: Index, here: Index) {
    && there.creators.Keys == here.creators.Keys
    && forall w :: w in there.creators ==> there.creators[w].handle == here.creators[w].handle
  }

  lemma AppliesAbove(there: Index, here: Index, write: Write)
    requires ApplyWrite(there, write).Ok?
    requires there.creators.Keys <= here.creators.Keys && there.pledges.Keys <= here.pledges.Keys
    requires there.contributions.Keys <= here.contributions.Keys
    requires write.UpsertCreator? ==> write.creator.wallet in here.creators || SameHandles(there, here)
    ensures ApplyWrite(here, write).Ok?
  {
    if write.UpsertCreator? && write.creator.wallet !in here.creators {
      forall w | w in here.creators ensures here.creators[w].handle != write.creator.handle {
        assert there.creators[w].handle == here.creators[w].handle;
      }
    }
  }

  lemma NextIs(ws: seq<Write>, q: nat)
    requires q < |ws| && ApplyWrites(EMPTY, ws).Ok?
    ensures ApplyWrites(EMPTY, ws[..q]).Ok?
    ensures ApplyWrite(ApplyWrites(EMPTY, ws[..q]).value, ws[q]).Ok?
    ensures ApplyWrites(EMPTY, ws[..q + 1]) == ApplyWrite(ApplyWrites(EMPTY, ws[..q]).value, ws[q])
  {
    PrefixOk(ws, q);
    PrefixOk(ws, q + 1);
    assert ws[..q + 1] == ws[..q] + [ws[q]];
    ApplyLast(ws[..q], ws[q]);
  }

  // A write that the history applied once can be applied again on what a walk has built.
  lemma WriteApplies(ws: seq<Write>, positions: seq<nat>, q: nat)
    requires Walk(positions, |ws|) && q <= Covered(positions) <= |ws| && q < |ws|
    requires ApplyWrites(EMPTY, ws).Ok? && ApplyWrites(EMPTY, Seen(ws, positions)).Ok?
    ensures ApplyWrite(ApplyWrites(EMPTY, Seen(ws, positions)).value, ws[q]).Ok?
  {
    RowsCovered(ws, positions, q);
    NextIs(ws, q);
    var there, here := ApplyWrites(EMPTY, ws[..q]).value, ApplyWrites(EMPTY, Seen(ws, positions)).value;
    if q < Covered(positions) && ws[q].UpsertCreator? {
      RowsCovered(ws, positions, q + 1);
      assert ws[q].creator.wallet in ApplyWrites(EMPTY, ws[..q + 1]).value.creators;
    }
    AppliesAbove(there, here, ws[q]);
  }

  /** No constraint is ever violated on the way, however the worker rewinds. */
  lemma {:induction false} WalkApplies(ws: seq<Write>, positions: seq<nat>)
    requires Walk(positions, |ws|) && ApplyWrites(EMPTY, ws).Ok?
    ensures ApplyWrites(EMPTY, Seen(ws, positions)).Ok?
    decreases |positions|
  {
    if positions != [] {
      var init, q := positions[..|positions| - 1], positions[|positions| - 1];
      CoveredBounds(positions, |ws|);
      WalkInit(ws, positions);
      CoveredBounds(init, |ws|);
      WalkApplies(ws, init);
      WriteApplies(ws, init, q);
      ApplyLast(Seen(ws, init), ws[q]);
    }
  }

  /** A walk that ends at the last write has built the same index. */
  lemma WalkConverges(ws: seq<Write>, positions: seq<nat>)
    requires Walk(positions, |ws|) && ApplyWrites(EMPTY, ws).Ok?
    requires if positions == [] then ws == [] else positions[|positions| - 1] == |ws| - 1
    ensures ApplyWrites(EMPTY, Seen(ws, positions)) == ApplyWrites(EMPTY, ws)
  {
    hide ApplyWrites;
    if positions == [] {
      assert Seen(ws, positions) == ws;
      return;
    }
    var seen := Seen(ws, positions);
    WalkApplies(ws, positions);
    CoveredBounds(positions, |ws|);
    assert ws[..Covered(positions)] == ws;
    Described(seen);
    Described(ws);
    var here, there := ApplyWrites(EMPTY, seen).value, ApplyWrites(EMPTY, ws).value;
    forall w ensures w in here.creators <==> w in there.creators
             ensures w in here.creators ==> here.creators[w] == there.creators[w] {
      FirstSeen(ProfileOf(w), ws, positions);
      LastSeen(ProfileOf(w), ws, positions);
    }
    forall k ensures k in here.pledges <==> k in there.pledges
             ensures k in here.pledges ==> here.pledges[k] == there.pledges[k] {
      FirstSeen(SnapshotOf(k), ws, positions);
      LastSeen(SnapshotOf(k), ws, positions);
      LastSeen(FlagOf(k), ws, positions);
    }
    forall sig ensures sig in here.contributions <==> sig in there.contributions
               ensures sig in here.contributions ==> here.contributions[sig] == there.contributions[sig] {
      FirstSeen(RecordOf(sig), ws, positions);
    }
    assert here.creators == there.creators;
    assert here.pledges == there.pledges;
    assert here.contributions == there.contributions;
  }
}
