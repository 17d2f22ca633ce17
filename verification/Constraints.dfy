/** The constraints of the three tables: what every write keeps, whatever is delivered in whatever order,
    and why a write is refused. */
module Constraints {
  import opened Common
  import opened Program
  import opened Logs
  import opened Tables

  // A pledge row by itself: dates in range and counters that fit a signed 32-bit integer.
  predicate GoodPledge(row: PledgeRow) {
    IsDate(row.startedAt) && IsDate(row.expiresAt) && row.periodsTotal <= 0x7FFF_FFFF && row.contributions <= 0x7FFF_FFFF
  }

  // A contribution row by itself: a date in range and two halves of 128 bytes.
  predicate GoodContribution(row: ContributionRow) {
    IsDate(row.blockTime) && |row.groupedLo| == 128 && |row.groupedHi| == 128
  }

  // Profiles stand under their wallets, and no two share a handle.
  ghost predicate GoodCreators(rows: map<Address, CreatorRow>) {
    && (forall w :: w in rows ==> rows[w].wallet == w)
    && forall v, w :: v in rows && w in rows && rows[v].handle == rows[w].handle ==> v == w
  }

  // Pledges stand under their keys and have their creator.
  ghost predicate GoodPledges(rows: map<PledgeKey, PledgeRow>, creators: set<Address>) {
    forall k :: k in rows ==>
      PledgeKey(rows[k].creator, rows[k].supporter) == k && k.creator in creators && GoodPledge(rows[k])
  }

  // Contributions stand under their signatures and have their pledge.
  ghost predicate GoodContributions(rows: map<Signature, ContributionRow>, pledges: set<PledgeKey>) {
    forall s :: s in rows ==>
      rows[s].sig == s && GoodContribution(rows[s]) && PledgeKey(rows[s].creator, rows[s].supporter) in pledges
  }

  ghost predicate Constrained(ix: Index) {
    && GoodCreators(ix.creators) && GoodPledges(ix.pledges, ix.creators.Keys)
    && GoodContributions(ix.contributions, ix.pledges.Keys)
  }

  lemma CreatorsKeep(ix: Index, row: CreatorRow)
    requires GoodCreators(ix.creators) && ApplyWrite(ix, UpsertCreator(row)).Ok?
    ensures GoodCreators(ApplyWrite(ix, UpsertCreator(row)).value.creators)
  {
    var rows := ix.creators;
    if row.wallet in rows {
      var next := rows[row.wallet := RefreshedCreator(rows[row.wallet], row)];
      assert forall w :: w in rows ==> next[w].handle == rows[w].handle;
    } else {
      NewHandle(ix, row);
    }
  }

  lemma NewHandle(ix: Index, row: CreatorRow)
    requires !HandleUsed(ix, row.handle)
    ensures forall w :: w in ix.creators ==> ix.creators[w].handle != row.handle
  {
  }

  lemma PledgesStand(rows: map<PledgeKey, PledgeRow>, creators: set<Address>, more: set<Address>)
    requires GoodPledges(rows, creators) && creators <= more
    ensures GoodPledges(rows, more)
  {
  }

  lemma ContributionsStand(rows: map<Signature, ContributionRow>, pledges: set<PledgeKey>, more: set<PledgeKey>)
    requires GoodContributions(rows, pledges) && pledges <= more
    ensures GoodContributions(rows, more)
  {
  }

  lemma PledgesKeep(rows: map<PledgeKey, PledgeRow>, creators: set<Address>, k: PledgeKey, row: PledgeRow)
    requires GoodPledges(rows, creators) && PledgeKey(row.creator, row.supporter) == k && GoodPledge(row)
    requires k in rows || k.creator in creators
    ensures GoodPledges(rows[k := row], creators)
  {
  }

  lemma ContributionsKeep(rows: map<Signature, ContributionRow>, pledges: set<PledgeKey>, row: ContributionRow)
    requires GoodContributions(rows, pledges) && GoodContribution(row) && PledgeKey(row.creator, row.supporter) in pledges
    ensures GoodContributions(rows[row.sig := row], pledges)
  {
  }

  /** No write breaks a constraint. */
  lemma WriteKeeps(ix: Index, write: Write)
    requires Constrained(ix) && ApplyWrite(ix, write).Ok?
    ensures Constrained(ApplyWrite(ix, write).value)
  {
    var next := ApplyWrite(ix, write).value;
    PledgesStand(ix.pledges, ix.creators.Keys, next.creators.Keys);
    ContributionsStand(ix.contributions, ix.pledges.Keys, next.pledges.Keys);
    match write {
      case UpsertCreator(row) => CreatorsKeep(ix, row);
      case UpsertPledge(row) => PledgesKeep(ix.pledges, ix.creators.Keys, PledgeKey(row.creator, row.supporter), row);
      case InsertContribution(row) =>
        if row.sig !in ix.contributions {
          ContributionsKeep(ix.contributions, ix.pledges.Keys, row);
        }
      case UpdateVisibility(key, showPublicly) =>
        if key in ix.pledges {
          PledgesKeep(ix.pledges, ix.creators.Keys, key, ix.pledges[key].(showPublicly := showPublicly));
        }
    }
    hide GoodCreators, GoodPledges, GoodContributions, HandleUsed;
  }

  // What a write that goes through leaves: a profile that is there already keeps its handle and the slot
  // it was registered in, a contribution that is there already stays as it is.
  ghost predicate Leaves(ix: Index, write: Write, next: Index) {
    match write
    case UpsertCreator(row) =>
      && next.pledges == ix.pledges && next.contributions == ix.contributions
      && next.creators.Keys == ix.creators.Keys + {row.wallet}
      && (forall w :: w in ix.creators && w != row.wallet ==> next.creators[w] == ix.creators[w])
      && var first := if row.wallet in ix.creators then ix.creators[row.wallet] else row;
      next.creators[row.wallet]
      == CreatorRow(first.wallet, first.handle, row.name, row.description, row.suggestedAmount, first.createdSlot, row.indexedAt)
    case UpsertPledge(row) =>
      next == Index(ix.creators, ix.pledges[PledgeKey(row.creator, row.supporter) := row], ix.contributions)
    case InsertContribution(row) =>
      && next.creators == ix.creators && next.pledges == ix.pledges
      && next.contributions == map[row.sig := row] + ix.contributions
    case UpdateVisibility(key, showPublicly) =>
      && next.creators == ix.creators && next.contributions == ix.contributions && next.pledges.Keys == ix.pledges.Keys
      && forall k :: k in ix.pledges ==>
           next.pledges[k] == if k == key then ix.pledges[k].(showPublicly := showPublicly) else ix.pledges[k]
  }

  lemma WriteLeaves(ix: Index, write: Write)
    requires ApplyWrite(ix, write).Ok?
    ensures Leaves(ix, write, ApplyWrite(ix, write).value)
  {
    hide HandleUsed;
  }

  // Why the database refuses a write.
  ghost predicate Breaks(ix: Index, write: Write, error: ApplyError) {
    match write
    case UpsertCreator(row) =>
      && row.wallet !in ix.creators && error == HandleNotUnique
      && exists w :: w in ix.creators && ix.creators[w].handle == row.handle
    case UpsertPledge(row) =>
      if !IsDate(row.startedAt) || !IsDate(row.expiresAt) then error == DateOutOfRange
      else if row.periodsTotal > 0x7FFF_FFFF || row.contributions > 0x7FFF_FFFF then error == CounterOutOfRange
      else row.creator !in ix.creators && error == CreatorMissing
    case InsertContribution(row) =>
      if !IsDate(row.blockTime) then error == DateOutOfRange
      else if |row.groupedLo| != 128 || |row.groupedHi| != 128 then error == CiphertextLength
      else
        && row.sig !in ix.contributions && PledgeKey(row.creator, row.supporter) !in ix.pledges
        && error == PledgeMissing
    case UpdateVisibility(_, _) => false
  }

  /** A write is refused exactly when its row is out of range or would break a constraint, and the error
      says which. */
  lemma RefusedIff(ix: Index, write: Write, error: ApplyError)
    requires Constrained(ix)
    ensures ApplyWrite(ix, write) == Err(error) <==> Breaks(ix, write, error)
  {
    if write.UpsertPledge? {
      var key := PledgeKey(write.pledge.creator, write.pledge.supporter);
      assert key in ix.pledges ==> key.creator in ix.creators;
    }
    hide Constrained, GoodCreators, GoodPledges, GoodContributions;
  }

  lemma {:induction false} WritesKeep(ix: Index, writes: seq<Write>)
    requires Constrained(ix) && ApplyWrites(ix, writes).Ok?
    ensures Constrained(ApplyWrites(ix, writes).value)
    decreases |writes|
  {
    if writes != [] {
      WriteKeeps(ix, writes[0]);
      WritesKeep(ApplyWrite(ix, writes[0]).value, writes[1..]);
    }
  }

  // The tables after transactions were delivered in some order; one that cannot be handled leaves them.
  function AfterAll(reader: Reader, rpc: ChainReader, now: nat -> int, txs: seq<ProgramTransaction>): Index {
    if txs == [] then EMPTY
    else
      var n := |txs| - 1;
      var ix := AfterAll(reader, rpc, now, txs[..n]);
      match Handle(reader, rpc, now(n), ix, txs[n])
      case Ok(next) => next
      case Err(_) => ix
  }

  /** The constraints hold always: whatever transactions are delivered, in whatever order, with whatever
      logs, and whatever the node answers. */
  lemma {:induction false} AlwaysConstrained(reader: Reader, rpc: ChainReader, now: nat -> int, txs: seq<ProgramTransaction>)
    ensures Constrained(AfterAll(reader, rpc, now, txs))
    decreases |txs|
  {
    hide Constrained, ApplyWrites, WritesFor;
    if txs == [] {
      NothingToBreak();
    } else {
      var n := |txs| - 1;
      var ix := AfterAll(reader, rpc, now, txs[..n]);
      AlwaysConstrained(reader, rpc, now, txs[..n]);
      var writes := WritesFor(reader, rpc, now(n), txs[n]);
      if writes.Ok? && ApplyWrites(ix, writes.value).Ok? {
        WritesKeep(ix, writes.value);
      }
    }
  }

  lemma NothingToBreak()
    ensures Constrained(EMPTY)
  {
  }

  lemma {:induction false} PlanFails(tx: ProgramTransaction, events: seq<ProgramEvent>, ciphertext: Option<RecipientCiphertext>, now: int)
    ensures Plan(tx, events, ciphertext, now).Err?
            <==> AnyPledged(events) && (ciphertext.None? || tx.blockTime.None?)
    ensures AnyPledged(events) && ciphertext.Some? && tx.blockTime.None? ==>
              Plan(tx, events, ciphertext, now) == Err(PledgedWithoutBlockTime)
    decreases |events|
  {
    if events != [] {
      AnyPledgedRest(events);
      PlanFails(tx, events[1..], ciphertext, now);
    }
  }

  /** Why no writes are planned for a delivered transaction, in the order in which it is found: its logs
      hold a broken event, or it pledges and the node serves no ciphertext, or no block time either. A
      failed transaction is never the reason for anything. */
  lemma UnplannedIff(reader: Reader, rpc: ChainReader, now: int, tx: ProgramTransaction, error: ApplyError)
    ensures WritesFor(reader, rpc, now, tx) == Err(error) <==>
              && !tx.failed
              && if Parse(reader, tx.logs).Err? then error == UnparsableLogs
                 else
                   && AnyPledged(Parse(reader, tx.logs).value)
                   && if rpc.ciphertext(tx.signature).None? then error == CiphertextUnavailable
                      else tx.blockTime.None? && rpc.blockTime(tx.signature).None? && error == PledgedWithoutBlockTime
  {
    if !tx.failed && Parse(reader, tx.logs).Ok? {
      var events := Parse(reader, tx.logs).value;
      var blockTime := if tx.blockTime.None? then rpc.blockTime(tx.signature) else tx.blockTime;
      PlanFails(tx, events, None, now);
      PlanFails(tx.(blockTime := blockTime), events, rpc.ciphertext(tx.signature), now);
    }
    hide Plan, Parse, AnyPledged;
  }
}
