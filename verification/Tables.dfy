/** The index: three tables with their constraints, the writes planned from events, and the applier
    that runs the writes of one chain transaction inside one database transaction. */
module Tables {
  import opened Common
  import opened Program
  import opened Logs

  datatype CreatorRow = CreatorRow(
    wallet: Address, handle: Text, name: Text, description: Text,
    suggestedAmount: int, createdSlot: int, indexedAt: int)

  // Times are milliseconds, as in a JavaScript Date.
  datatype PledgeRow = PledgeRow(
    creator: Address, supporter: Address, startedAt: int, expiresAt: int, periodsTotal: int,
    contributions: int, showPublicly: bool, lastSig: Signature, lastSlot: int)

  datatype Kind = FirstContribution | RenewalContribution

  datatype ContributionRow = ContributionRow(
    sig: Signature, creator: Address, supporter: Address, slot: int, blockTime: int, periods: int,
    kind: Kind, groupedLo: seq<byte>, groupedHi: seq<byte>, proofSig: Signature)

  datatype Index = Index(
    creators: map<Address, CreatorRow>,
    pledges: map<PledgeKey, PledgeRow>,
    contributions: map<Signature, ContributionRow>)

  const EMPTY := Index(map[], map[], map[])

  const GROUPED_BYTES := 128

  // The counters of a pledge are u32 in the account and signed 32-bit integers in the table.
  const INTEGER_MAX := 0x7FFF_FFFF

  // The furthest milliseconds a JavaScript Date reaches.
  const DATE_MAX: int := 8_640_000_000_000_000

  datatype Window = Window(first: int, last: int)

  type DateWindow = w: Window | -DATE_MAX <= w.first && w.last <= DATE_MAX
    witness Window(-8_640_000_000_000_000, 8_640_000_000_000_000)

  /** The dates that reach a timestamp column. A Date bounds them; how much less the driver writes and
      the database keeps is left open, so every theorem holds for every window. */
  const DATES: DateWindow

  predicate IsDate(ms: int) { DATES.first <= ms <= DATES.last }

  predicate HasDates(row: PledgeRow) { IsDate(row.startedAt) && IsDate(row.expiresAt) }

  predicate HasIntegers(row: PledgeRow) { row.periodsTotal <= INTEGER_MAX && row.contributions <= INTEGER_MAX }

  datatype Write =
    | UpsertCreator(creator: CreatorRow)
    | UpsertPledge(pledge: PledgeRow)
    | InsertContribution(contribution: ContributionRow)
    | UpdateVisibility(key: PledgeKey, showPublicly: bool)

  datatype ApplyError =
    | UnparsableLogs | CiphertextUnavailable | PledgedWithoutCiphertext | PledgedWithoutBlockTime
    | HandleNotUnique | CreatorMissing | PledgeMissing | CiphertextLength | CounterOutOfRange | DateOutOfRange

  // `on conflict (wallet) do update`: the profile is refreshed, handle and registration slot stay.
  function RefreshedCreator(existing: CreatorRow, row: CreatorRow): CreatorRow {
    existing.(name := row.name, description := row.description,
              suggestedAmount := row.suggestedAmount, indexedAt := row.indexedAt)
  }

  predicate HandleUsed(ix: Index, handle: Text) {
    exists w :: w in ix.creators && ix.creators[w].handle == handle
  }

  function ApplyWrite(ix: Index, write: Write): Result<Index, ApplyError> {
    match write
    case UpsertCreator(row) =>
      if row.wallet in ix.creators then
        Ok(ix.(creators := ix.creators[row.wallet := RefreshedCreator(ix.creators[row.wallet], row)]))
      else if HandleUsed(ix, row.handle) then Err(HandleNotUnique)
      else Ok(ix.(creators := ix.creators[row.wallet := row]))
    case UpsertPledge(row) =>
      var key := PledgeKey(row.creator, row.supporter);
      if !HasDates(row) then Err(DateOutOfRange)
      else if !HasIntegers(row) then Err(CounterOutOfRange)
      else if key !in ix.pledges && row.creator !in ix.creators then Err(CreatorMissing)
      else Ok(ix.(pledges := ix.pledges[key := row]))
    case InsertContribution(row) =>
      if !IsDate(row.blockTime) then Err(DateOutOfRange)
      else if |row.groupedLo| != GROUPED_BYTES || |row.groupedHi| != GROUPED_BYTES then Err(CiphertextLength)
      else if row.sig in ix.contributions then Ok(ix)
      else if PledgeKey(row.creator, row.supporter) !in ix.pledges then Err(PledgeMissing)
      else Ok(ix.(contributions := ix.contributions[row.sig := row]))
    case UpdateVisibility(key, showPublicly) =>
      if key in ix.pledges then Ok(ix.(pledges := ix.pledges[key := ix.pledges[key].(showPublicly := showPublicly)]))
      else Ok(ix)
  }

  function ApplyWrites(ix: Index, writes: seq<Write>): Result<Index, ApplyError>
    decreases |writes|
  {
    if writes == [] then Ok(ix)
    else match ApplyWrite(ix, writes[0])
      case Err(e) => Err(e)
      case Ok(next) => ApplyWrites(next, writes[1..])
  }

  datatype ProgramTransaction = ProgramTransaction(
    signature: Signature, slot: int, blockTime: Option<int>, logs: seq<string>, failed: bool)

  datatype RecipientCiphertext = RecipientCiphertext(groupedLo: seq<byte>, groupedHi: seq<byte>, proofSig: Signature)

  // What the worker asks the RPC node for while it handles one transaction.
  datatype ChainReader = ChainReader(
    ciphertext: Signature -> Option<RecipientCiphertext>, blockTime: Signature -> Option<int>)

  function ChainTime(seconds: int): int { seconds * 1000 }

  function PlanEvent(tx: ProgramTransaction, event: ProgramEvent, ciphertext: Option<RecipientCiphertext>, now: int)
    : Result<seq<Write>, ApplyError>
  {
    match event
    case Pledged(creator, supporter, periods, startedAt, expiresAt, periodsTotal, contributions, showPublicly, _) =>
      if ciphertext.None? then Err(PledgedWithoutCiphertext)
      else if tx.blockTime.None? then Err(PledgedWithoutBlockTime)
      else
        Ok([UpsertPledge(PledgeRow(creator, supporter, ChainTime(startedAt), ChainTime(expiresAt), periodsTotal,
                                   contributions, showPublicly, tx.signature, tx.slot)),
            InsertContribution(ContributionRow(
              tx.signature, creator, supporter, tx.slot, ChainTime(tx.blockTime.value), periods,
              if contributions == 1 then FirstContribution else RenewalContribution,
              ciphertext.value.groupedLo, ciphertext.value.groupedHi, ciphertext.value.proofSig))])
    case VisibilityChanged(creator, supporter, showPublicly, _) =>
      Ok([UpdateVisibility(PledgeKey(creator, supporter), showPublicly)])
    case CreatorRegistered(wallet, handle, name, description, suggestedAmount, slot) =>
      Ok([UpsertCreator(CreatorRow(wallet, handle, name, description, suggestedAmount, slot, now))])
    case CreatorUpdated(wallet, handle, name, description, suggestedAmount, slot) =>
      Ok([UpsertCreator(CreatorRow(wallet, handle, name, description, suggestedAmount, slot, now))])
  }

  function Plan(tx: ProgramTransaction, events: seq<ProgramEvent>, ciphertext: Option<RecipientCiphertext>, now: int)
    : Result<seq<Write>, ApplyError>
    decreases |events|
  {
    if events == [] then Ok([])
    else match PlanEvent(tx, events[0], ciphertext, now)
      case Err(e) => Err(e)
      case Ok(first) => Prepend(first, Plan(tx, events[1..], ciphertext, now))
  }

  function Prepend(writes: seq<Write>, rest: Result<seq<Write>, ApplyError>): Result<seq<Write>, ApplyError> {
    match rest
    case Err(e) => Err(e)
    case Ok(more) => Ok(writes + more)
  }

  lemma PrependPlan(writes: seq<Write>, first: Result<seq<Write>, ApplyError>, rest: Result<seq<Write>, ApplyError>)
    ensures Prepend([], rest) == rest
    ensures first.Ok? ==> Prepend(writes, Prepend(first.value, rest)) == Prepend(writes + first.value, rest)
  {
    if rest.Ok? {
      assert [] + rest.value == rest.value;
      if first.Ok? {
        assert writes + (first.value + rest.value) == (writes + first.value) + rest.value;
      }
    }
  }

  method PlanWrites(tx: ProgramTransaction, events: seq<ProgramEvent>, ciphertext: Option<RecipientCiphertext>, now: int)
    returns (r: Result<seq<Write>, ApplyError>)
    ensures r == Plan(tx, events, ciphertext, now)
  {
    var writes: seq<Write> := [];
    assert events[0..] == events;
    PrependPlan([], Ok([]), Plan(tx, events, ciphertext, now));
    for i := 0 to |events|
      invariant Plan(tx, events, ciphertext, now) == Prepend(writes, Plan(tx, events[i..], ciphertext, now))
    {
      assert events[i..][1..] == events[i + 1..];
      var event := events[i];
      PrependPlan(writes, PlanEvent(tx, event, ciphertext, now), Plan(tx, events[i + 1..], ciphertext, now));
      if event.Pledged? {
        if ciphertext.None? { return Err(PledgedWithoutCiphertext); }
        if tx.blockTime.None? { return Err(PledgedWithoutBlockTime); }
        ghost var before := writes;
        writes := writes + [UpsertPledge(PledgeRow(
          event.creator, event.supporter, ChainTime(event.startedAt), ChainTime(event.expiresAt), event.periodsTotal,
          event.contributions, event.showPublicly, tx.signature, tx.slot))];
        var kind := if event.contributions == 1 then FirstContribution else RenewalContribution;
        writes := writes + [InsertContribution(ContributionRow(
          tx.signature, event.creator, event.supporter, tx.slot, ChainTime(tx.blockTime.value), event.periods, kind,
          ciphertext.value.groupedLo, ciphertext.value.groupedHi, ciphertext.value.proofSig))];
        assert writes == before + PlanEvent(tx, event, ciphertext, now).value;
      } else if event.VisibilityChanged? {
        writes := writes + [UpdateVisibility(PledgeKey(event.creator, event.supporter), event.showPublicly)];
      } else {
        writes := writes + [UpsertCreator(CreatorRow(
          event.wallet, event.handle, event.name, event.description, event.suggestedAmount, event.slot, now))];
      }
    }
    assert writes + [] == writes;
    r := Ok(writes);
  }

  predicate AnyPledged(events: seq<ProgramEvent>) {
    exists i :: 0 <= i < |events| && events[i].Pledged?
  }

  lemma AnyPledgedRest(events: seq<ProgramEvent>)
    requires events != []
    ensures AnyPledged(events) <==> events[0].Pledged? || AnyPledged(events[1..])
  {
    if i :| 0 <= i < |events[1..]| && events[1..][i].Pledged? {
      assert events[i + 1].Pledged?;
    }
    if i :| 0 < i < |events| && events[i].Pledged? {
      assert events[1..][i - 1].Pledged?;
    }
  }

  // The writes of one delivered transaction, or why it cannot be applied now.
  function WritesFor(reader: Reader, rpc: ChainReader, now: int, tx: ProgramTransaction): Result<seq<Write>, ApplyError> {
    if tx.failed then Ok([]) else
    match Parse(reader, tx.logs)
    case Err(_) => Err(UnparsableLogs)
    case Ok(events) =>
      if !AnyPledged(events) then Plan(tx, events, None, now) else
      var ciphertext := rpc.ciphertext(tx.signature);
      if ciphertext.None? then Err(CiphertextUnavailable)
      else
        var blockTime := if tx.blockTime.None? then rpc.blockTime(tx.signature) else tx.blockTime;
        Plan(tx.(blockTime := blockTime), events, ciphertext, now)
  }

  function Handle(reader: Reader, rpc: ChainReader, now: int, ix: Index, tx: ProgramTransaction): Result<Index, ApplyError> {
    match WritesFor(reader, rpc, now, tx)
    case Err(e) => Err(e)
    case Ok(writes) => ApplyWrites(ix, writes)
  }

  /** The database of the worker. */
  class Database {
    var creators: map<Address, CreatorRow>
    var pledges: map<PledgeKey, PledgeRow>
    var contributions: map<Signature, ContributionRow>

    ghost function State(): Index
      reads this
    {
      Index(creators, pledges, contributions)
    }

    ghost predicate Wrote(before: Index, outcome: Result<Index, ApplyError>, error: Option<ApplyError>)
      reads this
    {
      match outcome
      case Ok(ix) => State() == ix && error == None
      case Err(e) => State() == before && error == Some(e)
    }

    constructor ()
      ensures State() == EMPTY
    {
      creators, pledges, contributions := map[], map[], map[];
    }

    method UpsertCreatorRow(row: CreatorRow) returns (error: Option<ApplyError>)
      modifies this
      ensures Wrote(old(State()), ApplyWrite(old(State()), UpsertCreator(row)), error)
    {
      if row.wallet in creators {
        var row' := creators[row.wallet];
        row' := row'.(name := row.name);
        row' := row'.(description := row.description);
        row' := row'.(suggestedAmount := row.suggestedAmount);
        row' := row'.(indexedAt := row.indexedAt);
        creators := creators[row.wallet := row'];
        return None;
      }
      if exists w :: w in creators && creators[w].handle == row.handle { return Some(HandleNotUnique); }
      creators := creators[row.wallet := row];
      error := None;
    }

    method UpsertPledgeRow(row: PledgeRow) returns (error: Option<ApplyError>)
      modifies this
      ensures Wrote(old(State()), ApplyWrite(old(State()), UpsertPledge(row)), error)
    {
      var key := PledgeKey(row.creator, row.supporter);
      if !IsDate(row.startedAt) || !IsDate(row.expiresAt) { return Some(DateOutOfRange); }
      if row.periodsTotal > INTEGER_MAX || row.contributions > INTEGER_MAX { return Some(CounterOutOfRange); }
      if key !in pledges && row.creator !in creators { return Some(CreatorMissing); }
      pledges := pledges[key := row];
      error := None;
    }

    method InsertContributionRow(row: ContributionRow) returns (error: Option<ApplyError>)
      modifies this
      ensures Wrote(old(State()), ApplyWrite(old(State()), InsertContribution(row)), error)
    {
      if !IsDate(row.blockTime) { return Some(DateOutOfRange); }
      if |row.groupedLo| != GROUPED_BYTES || |row.groupedHi| != GROUPED_BYTES { return Some(CiphertextLength); }
      if row.sig in contributions { return None; }
      if PledgeKey(row.creator, row.supporter) !in pledges { return Some(PledgeMissing); }
      contributions := contributions[row.sig := row];
      error := None;
    }

    method SetVisibilityFlag(key: PledgeKey, showPublicly: bool) returns (error: Option<ApplyError>)
      modifies this
      ensures Wrote(old(State()), ApplyWrite(old(State()), UpdateVisibility(key, showPublicly)), error)
    {
      if key in pledges {
        pledges := pledges[key := pledges[key].(showPublicly := showPublicly)];
      }
      error := None;
    }

    // The handler of one delivered transaction: all of its writes or none.
    method Apply(reader: Reader, rpc: ChainReader, now: int, tx: ProgramTransaction) returns (error: Option<ApplyError>)
      modifies this
      ensures Wrote(old(State()), Handle(reader, rpc, now, old(State()), tx), error)
    {
      if tx.failed { return None; }
      var events := ParseEvents(reader, tx.logs);
      if events.Err? { return Some(UnparsableLogs); }
      if events.value == [] { return None; }
      var ciphertext, blockTime := None, tx.blockTime;
      if AnyPledged(events.value) {
        ciphertext := rpc.ciphertext(tx.signature);
        if ciphertext.None? { return Some(CiphertextUnavailable); }
        if blockTime.None? { blockTime := rpc.blockTime(tx.signature); }
      }
      var planned := PlanWrites(tx.(blockTime := blockTime), events.value, ciphertext, now);
      if planned.Err? { return Some(planned.error); }
      var writes := planned.value;
      var before := (creators, pledges, contributions);
      assert writes[0..] == writes;
      for i := 0 to |writes|
        invariant ApplyWrites(old(State()), writes) == ApplyWrites(State(), writes[i..])
      {
        assert writes[i..][1..] == writes[i + 1..];
        match writes[i] {
          case UpsertCreator(row) => error := UpsertCreatorRow(row);
          case UpsertPledge(row) => error := UpsertPledgeRow(row);
          case InsertContribution(row) => error := InsertContributionRow(row);
          case UpdateVisibility(key, showPublicly) => error := SetVisibilityFlag(key, showPublicly);
        }
        if error.Some? {
          creators, pledges, contributions := before.0, before.1, before.2;
          return;
        }
      }
      error := None;
    }
  }

  lemma {:induction false} ApplyAppend(ix: Index, a: seq<Write>, b: seq<Write>)
    ensures ApplyWrites(ix, a + b)
            == match ApplyWrites(ix, a) case Err(e) => Err(e) case Ok(mid) => ApplyWrites(mid, b)
    decreases |a|
  {
    if a == [] {
      assert a + b == b;
    } else {
      assert (a + b)[1..] == a[1..] + b;
      if ApplyWrite(ix, a[0]).Ok? {
        ApplyAppend(ApplyWrite(ix, a[0]).value, a[1..], b);
      }
    }
  }
}
