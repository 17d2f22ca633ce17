/** The index refines the chain: applying the logs of a history, oldest first, never breaks a
    constraint and leaves every row equal to the account it stands for. */
module Refinement {
  import opened Common
  import opened Periods
  import opened Introspect
  import opened Program
  import opened Logs
  import opened Runs
  import opened Tables

  /** What stays outside the model: the deployment, the event codec and the RPC node. */
  datatype World = World(
    deployment: Deployment, reader: Reader, encode: ProgramEvent -> string, rpc: ChainReader)

  // The codec is lossless and the program id is an address.
  ghost predicate Sound(w: World) {
    IsAddress(w.reader.own) && Inverts(w.reader, w.encode)
  }

  // The runtime logs each emitted event once, in order, in a frame of the program, and the node
  // tells the same block time whenever it is asked.
  ghost predicate Logged(w: World, c: Chain, tx: Tx) {
    && TopLevel(tx.trace) && w.rpc.blockTime(tx.signature) == tx.blockTime
    && (!Fails(w.deployment, c, tx) ==>
        OwnPayloads(tx.trace, "", w.reader.own) == EncodeAll(w.encode, EventsOf(w.deployment, c, tx)))
  }

  // What a pledge needs from the node before any write is planned.
  predicate Plannable(w: World, tx: Tx, event: ProgramEvent) {
    event.Pledged? ==> tx.blockTime.Some? && w.rpc.ciphertext(tx.signature).Some?
  }

  /** What a pledge needs to become rows: the node serves the block time and both halves of the
      recipient's ciphertext, and the dates are dates. Every other event needs nothing. */
  predicate Storable(w: World, tx: Tx, event: ProgramEvent) {
    event.Pledged? ==>
      && Plannable(w, tx, event)
      && |w.rpc.ciphertext(tx.signature).value.groupedLo| == 128
      && |w.rpc.ciphertext(tx.signature).value.groupedHi| == 128
      && IsDate(tx.blockTime.value * 1000)
      && IsDate(event.startedAt * 1000) && IsDate(event.expiresAt * 1000)
  }

  predicate AllPlannable(w: World, tx: Tx, events: seq<ProgramEvent>) {
    forall i :: 0 <= i < |events| ==> Plannable(w, tx, events[i])
  }

  predicate AllStorable(w: World, tx: Tx, events: seq<ProgramEvent>) {
    forall i :: 0 <= i < |events| ==> Storable(w, tx, events[i])
  }

  ghost predicate RecordedAt(w: World, c: Chain, tx: Tx) {
    Logged(w, c, tx) && AllStorable(w, tx, EventsOf(w.deployment, c, tx))
  }

  ghost predicate Recorded(w: World, history: seq<Tx>) {
    Sound(w) && forall i :: 0 <= i < |history| ==> RecordedAt(w, ChainAfter(w.deployment, history[..i]), history[i])
  }

  // A transaction as the worker receives it: the subscription carries no block time.
  function Delivered(w: World, c: Chain, tx: Tx, live: bool): ProgramTransaction {
    ProgramTransaction(tx.signature, tx.clock.slot, if live then None else tx.blockTime,
                       Printed(tx.trace), Fails(w.deployment, c, tx))
  }

  function Facts(tx: Tx): ProgramTransaction {
    ProgramTransaction(tx.signature, tx.clock.slot, tx.blockTime, [], false)
  }

  // The writes of one event, none if the node does not serve what it needs.
  function EventWrites(w: World, tx: Tx, event: ProgramEvent, now: int): seq<Write> {
    match PlanEvent(Facts(tx), Shown(event), w.rpc.ciphertext(tx.signature), now)
    case Ok(writes) => writes
    case Err(_) => []
  }

  function AllWrites(w: World, tx: Tx, events: seq<ProgramEvent>, now: int): seq<Write>
    decreases |events|
  {
    if events == [] then [] else EventWrites(w, tx, events[0], now) + AllWrites(w, tx, events[1..], now)
  }

  lemma PlannableRest(w: World, tx: Tx, events: seq<ProgramEvent>)
    requires events != []
    ensures AllPlannable(w, tx, events) <==> Plannable(w, tx, events[0]) && AllPlannable(w, tx, events[1..])
  {
    assert forall i :: 0 <= i < |events[1..]| ==> events[1..][i] == events[i + 1];
    assert forall i :: 0 < i < |events| ==> events[i] == events[1..][i - 1];
  }

  lemma {:induction false} ShownPledges(events: seq<ProgramEvent>)
    ensures AnyPledged(AllShown(events)) <==> AnyPledged(events)
    decreases |events|
  {
    if events != [] {
      var rest, shown := events[1..], AllShown(events);
      ShownPledges(rest);
      assert shown[1..] == AllShown(rest);
      assert events[0].Pledged? <==> shown[0].Pledged?;
      AnyPledgedRest(events);
      AnyPledgedRest(shown);
    }
  }

  lemma {:induction false} PlanIsAllWrites(w: World, tx: Tx, events: seq<ProgramEvent>, ciphertext: Option<RecipientCiphertext>,
                                           logs: seq<string>, failed: bool, now: int)
    requires ciphertext == w.rpc.ciphertext(tx.signature) || !AnyPledged(events)
    ensures var plan := Plan(Facts(tx).(logs := logs, failed := failed), AllShown(events), ciphertext, now);
            if AllPlannable(w, tx, events) then plan == Ok(AllWrites(w, tx, events, now)) else plan.Err?
    decreases |events|
  {
    if events != [] {
      AnyPledgedRest(events);
      PlannableRest(w, tx, events);
      PlanIsAllWrites(w, tx, events[1..], ciphertext, logs, failed, now);
      assert AllShown(events)[1..] == AllShown(events[1..]);
    }
  }

  lemma {:induction false} PlanWithoutPledges(tx: ProgramTransaction, blockTime: Option<int>, events: seq<ProgramEvent>,
                                              ciphertext: Option<RecipientCiphertext>, now: int)
    requires !AnyPledged(events)
    ensures Plan(tx, events, ciphertext, now) == Plan(tx.(blockTime := blockTime), events, ciphertext, now)
    decreases |events|
  {
    if events != [] {
      assert forall i :: 0 <= i < |events[1..]| ==> events[1..][i] == events[i + 1];
      assert !events[0].Pledged? && !AnyPledged(events[1..]);
      PlanWithoutPledges(tx, blockTime, events[1..], ciphertext, now);
    }
  }

  /** From the delivered logs the applier plans exactly the writes of the transaction's events,
      whichever channel delivered it, or nothing if a pledge lacks its ciphertext or block time; a
      failed transaction plans none. */
  lemma WritesOfDelivered(w: World, c: Chain, tx: Tx, live: bool, now: int)
    requires Sound(w) && Logged(w, c, tx)
    ensures var events, writes := EventsOf(w.deployment, c, tx), WritesFor(w.reader, w.rpc, now, Delivered(w, c, tx, live));
            if AllPlannable(w, tx, events) then writes == Ok(AllWrites(w, tx, events, now)) else writes.Err?
  {
    var delivered := Delivered(w, c, tx, live);
    if !delivered.failed {
      var events := EventsOf(w.deployment, c, tx);
      ParsePrinted(w.reader, tx.trace);
      DecodeEncoded(w.reader, w.encode, events);
      ShownPledges(events);
      if AnyPledged(events) {
        PlanIsAllWrites(w, tx, events, w.rpc.ciphertext(tx.signature), delivered.logs, false, now);
      } else {
        PlanIsAllWrites(w, tx, events, None, delivered.logs, false, now);
        PlanWithoutPledges(delivered, tx.blockTime, AllShown(events), None, now);
      }
    }
  }

  /** What the index remembers beyond the accounts: the slot a creator registered in, and the
      transaction that last contributed to a pledge. */
  datatype Notes = Notes(slots: map<Address, int>, sigs: map<PledgeKey, Signature>)

  ghost function NoteSlots(slots: map<Address, int>, before: map<Address, Creator>, after: map<Address, Creator>, slot: int)
    : map<Address, int>
  {
    slots + map w | w in after && w !in before :: slot
  }

  ghost function NoteSigs(sigs: map<PledgeKey, Signature>, before: map<PledgeKey, Pledge>, after: map<PledgeKey, Pledge>,
                          sig: Signature): map<PledgeKey, Signature>
  {
    sigs + map k | k in after && (k !in before || after[k].contributions != before[k].contributions) :: sig
  }

  ghost function Note(n: Notes, before: Chain, after: Chain, tx: Tx): Notes {
    Notes(NoteSlots(n.slots, before.creators, after.creators, tx.clock.slot),
          NoteSigs(n.sigs, before.pledges, after.pledges, tx.signature))
  }

  ghost function NotesAfter(d: Deployment, history: seq<Tx>): Notes {
    if history == [] then Notes(map[], map[]) else
      var init, tx := history[..|history| - 1], history[|history| - 1];
      var before := ChainAfter(d, init);
      Note(NotesAfter(d, init), before, After(d, before, tx), tx)
  }

  // The row of a profile is its account, but for zero bytes in the texts.
  ghost predicate CreatorMatches(w: Address, account: Creator, slot: int, row: CreatorRow) {
    row == CreatorRow(w, HandleOf(account.handle), WithoutNuls(account.name), WithoutNuls(account.description),
                      account.suggestedAmount, slot, row.indexedAt)
  }

  /** A matching row shows both texts of the profile unchanged exactly when they hold no zero byte. */
  lemma TextsMatchIff(w: Address, account: Creator, slot: int, row: CreatorRow)
    requires CreatorMatches(w, account, slot, row)
    ensures row.name == account.name <==> 0 !in account.name
    ensures row.description == account.description <==> 0 !in account.description
  {
    SameTextIff(account.name);
    SameTextIff(account.description);
  }

  lemma HandleHasNoNuls(handle: Text)
    requires IsValidHandle(handle)
    ensures WithoutNuls(handle) == handle
  {
    SameTextIff(handle);
  }

  ghost function RowOf(k: PledgeKey, p: Pledge, sig: Signature): PledgeRow {
    PledgeRow(k.creator, k.supporter, p.startedAt * 1000, p.expiresAt * 1000, p.periodsTotal,
              p.contributions, p.showPublicly, sig, p.lastSlot)
  }

  ghost predicate CreatorsMatch(accounts: map<Address, Creator>, rows: map<Address, CreatorRow>, slots: map<Address, int>) {
    && accounts.Keys == rows.Keys == slots.Keys
    && forall w :: w in accounts ==> CreatorMatches(w, accounts[w], slots[w], rows[w])
  }

  ghost predicate PledgesMatch(accounts: map<PledgeKey, Pledge>, rows: map<PledgeKey, PledgeRow>, sigs: map<PledgeKey, Signature>) {
    && accounts.Keys == rows.Keys == sigs.Keys
    && forall k :: k in accounts ==> rows[k] == RowOf(k, accounts[k], sigs[k])
  }

  ghost predicate Matches(c: Chain, ix: Index, n: Notes) {
    && CreatorsMatch(c.creators, ix.creators, n.slots)
    && PledgesMatch(c.pledges, ix.pledges, n.sigs)
  }

  ghost predicate Refined(before: Chain, after: Chain, tx: Tx, ix: Index, n: Notes, writes: seq<Write>) {
    && ApplyWrites(ix, writes).Ok?
    && Matches(after, ApplyWrites(ix, writes).value, Note(n, before, after, tx))
  }

  // Writing one creator account together with its row.
  lemma CreatorWritten(accounts: map<Address, Creator>, rows: map<Address, CreatorRow>, slots: map<Address, int>,
                       w: Address, account: Creator, row: CreatorRow, slot: int)
    requires CreatorsMatch(accounts, rows, slots)
    requires CreatorMatches(w, account, if w in accounts then slots[w] else slot, row)
    ensures CreatorsMatch(accounts[w := account], rows[w := row],
                          NoteSlots(slots, accounts, accounts[w := account], slot))
  {
  }

  // A counter of an account is not part of its row.
  lemma CreatorCounted(accounts: map<Address, Creator>, rows: map<Address, CreatorRow>, slots: map<Address, int>,
                       w: Address, account: Creator, slot: int)
    requires CreatorsMatch(accounts, rows, slots) && w in accounts
    requires account == accounts[w].(pledgesTotal := account.pledgesTotal)
    ensures CreatorsMatch(accounts[w := account], rows, NoteSlots(slots, accounts, accounts[w := account], slot))
  {
    assert CreatorMatches(w, accounts[w], slots[w], rows[w]);
    CreatorWritten(accounts, rows, slots, w, account, rows[w], slot);
    assert rows[w := rows[w]] == rows;
  }

  lemma PledgeWritten(accounts: map<PledgeKey, Pledge>, rows: map<PledgeKey, PledgeRow>, sigs: map<PledgeKey, Signature>,
                      k: PledgeKey, account: Pledge, row: PledgeRow, sig: Signature)
    requires PledgesMatch(accounts, rows, sigs)
    requires k in accounts && account.contributions == accounts[k].contributions ==> row == RowOf(k, account, sigs[k])
    requires !(k in accounts && account.contributions == accounts[k].contributions) ==> row == RowOf(k, account, sig)
    ensures PledgesMatch(accounts[k := account], rows[k := row],
                         NoteSigs(sigs, accounts, accounts[k := account], sig))
  {
  }

  lemma Untouched(c: Chain, n: Notes, slot: int, sig: Signature)
    ensures NoteSlots(n.slots, c.creators, c.creators, slot) == n.slots
    ensures NoteSigs(n.sigs, c.pledges, c.pledges, sig) == n.sigs
  {
    assert NoteSlots(n.slots, c.creators, c.creators, slot) == n.slots;
    assert NoteSigs(n.sigs, c.pledges, c.pledges, sig) == n.sigs;
  }

  lemma OneWrite(ix: Index, write: Write)
    ensures ApplyWrites(ix, [write]) == ApplyWrite(ix, write)
  {
    assert [write][1..] == [];
  }

  lemma HandleIsFree(c: Chain, ix: Index, n: Notes, handle: Text)
    requires Inv(c) && CreatorsMatch(c.creators, ix.creators, n.slots) && handle !in c.handles
    ensures !HandleUsed(ix, handle)
  {
    forall w | w in ix.creators ensures ix.creators[w].handle != handle {
      assert CreatorMatches(w, c.creators[w], n.slots[w], ix.creators[w]);
      assert CreatorInv(c, w);
    }
  }

  lemma RegisterRefined(c: Chain, tx: Tx, wallet: Address, handle: Text, name: Text, description: Text,
                        ix: Index, n: Notes, now: int)
    requires Inv(c) && Matches(c, ix, n)
    requires Register(c, tx.clock, wallet, handle, name, description).Ok?
    ensures var after := Register(c, tx.clock, wallet, handle, name, description).value.0;
            Refined(c, after, tx, ix, n, [UpsertCreator(CreatorRow(wallet, handle, WithoutNuls(name), WithoutNuls(description), 0,
                                                                   tx.clock.slot, now))])
  {
    hide HandleOf, IsValidHandle, WithoutNuls;
    var after := Register(c, tx.clock, wallet, handle, name, description).value.0;
    var row := CreatorRow(wallet, handle, WithoutNuls(name), WithoutNuls(description), 0, tx.clock.slot, now);
    HandleReadBack(handle);
    assert HandleSeed(handle) == handle;
    HandleIsFree(c, ix, n, handle);
    OneWrite(ix, UpsertCreator(row));
    CreatorWritten(c.creators, ix.creators, n.slots, wallet, after.creators[wallet], row, tx.clock.slot);
    Untouched(c, n, tx.clock.slot, tx.signature);
  }

  lemma UpdateRefined(c: Chain, tx: Tx, wallet: Address, name: Text, description: Text, suggestedAmount: u64,
                      ix: Index, n: Notes, now: int)
    requires Inv(c) && Matches(c, ix, n)
    requires Update(c, tx.clock, wallet, name, description, suggestedAmount).Ok?
    ensures var after := Update(c, tx.clock, wallet, name, description, suggestedAmount).value.0;
            var handle := HandleOf(c.creators[wallet].handle);
            && c.creators[wallet].wallet == wallet
            && IsValidHandle(handle)
            && Refined(c, after, tx, ix, n, [UpsertCreator(CreatorRow(wallet, handle, WithoutNuls(name), WithoutNuls(description),
                                                                      suggestedAmount, tx.clock.slot, now))])
  {
    hide HandleOf, WithoutNuls;
    var after := Update(c, tx.clock, wallet, name, description, suggestedAmount).value.0;
    var handle := HandleOf(c.creators[wallet].handle);
    var row := CreatorRow(wallet, handle, WithoutNuls(name), WithoutNuls(description), suggestedAmount, tx.clock.slot, now);
    assert CreatorInv(c, wallet) && CreatorMatches(wallet, c.creators[wallet], n.slots[wallet], ix.creators[wallet]);
    OneWrite(ix, UpsertCreator(row));
    CreatorWritten(c.creators, ix.creators, n.slots, wallet, after.creators[wallet],
                   RefreshedCreator(ix.creators[wallet], row), tx.clock.slot);
    Untouched(c, n, tx.clock.slot, tx.signature);
  }

  lemma TwoWrites(ix: Index, pledge: PledgeRow, contribution: ContributionRow)
    requires pledge.creator in ix.creators && HasDates(pledge) && HasIntegers(pledge) && IsDate(contribution.blockTime)
    requires contribution.creator == pledge.creator && contribution.supporter == pledge.supporter
    requires |contribution.groupedLo| == GROUPED_BYTES == |contribution.groupedHi|
    ensures var r := ApplyWrites(ix, [UpsertPledge(pledge), InsertContribution(contribution)]);
            && r.Ok?
            && r.value.creators == ix.creators
            && r.value.pledges == ix.pledges[PledgeKey(pledge.creator, pledge.supporter) := pledge]
  {
    var writes := [UpsertPledge(pledge), InsertContribution(contribution)];
    var mid := ApplyWrite(ix, writes[0]).value;
    assert writes[1..] == [InsertContribution(contribution)];
    OneWrite(mid, InsertContribution(contribution));
  }

  lemma ContributeRefined(c: Chain, after: Chain, tx: Tx, key: PledgeKey, periods: u8, showPublicly: bool,
                          ix: Index, n: Notes, contribution: ContributionRow)
    requires Matches(c, ix, n) && Contributed(c, after, tx.clock, key, periods, showPublicly)
    requires HasDates(RowOf(key, after.pledges[key], tx.signature)) && IsDate(contribution.blockTime)
    requires HasIntegers(RowOf(key, after.pledges[key], tx.signature))
    requires contribution.creator == key.creator && contribution.supporter == key.supporter
    requires |contribution.groupedLo| == GROUPED_BYTES == |contribution.groupedHi|
    ensures Refined(c, after, tx, ix, n,
                    [UpsertPledge(RowOf(key, after.pledges[key], tx.signature)), InsertContribution(contribution)])
  {
    var row := RowOf(key, after.pledges[key], tx.signature);
    TwoWrites(ix, row, contribution);
    CreatorCounted(c.creators, ix.creators, n.slots, key.creator, after.creators[key.creator], tx.clock.slot);
    PledgeWritten(c.pledges, ix.pledges, n.sigs, key, after.pledges[key], row, tx.signature);
  }

  lemma ShowRefined(c: Chain, after: Chain, tx: Tx, key: PledgeKey, showPublicly: bool, ix: Index, n: Notes)
    requires Matches(c, ix, n) && key in c.pledges
    requires after == c.(pledges := c.pledges[key := c.pledges[key].(showPublicly := showPublicly)])
    ensures Refined(c, after, tx, ix, n, [UpdateVisibility(key, showPublicly)])
  {
    hide HandleUsed;
    OneWrite(ix, UpdateVisibility(key, showPublicly));
    PledgeWritten(c.pledges, ix.pledges, n.sigs, key, after.pledges[key],
                  ix.pledges[key].(showPublicly := showPublicly), tx.signature);
    Untouched(c, n, tx.clock.slot, tx.signature);
  }

  // The writes of an accepted contribution, from what it does to the accounts.
  lemma PledgeEventRefined(w: World, c: Chain, after: Chain, tx: Tx, key: PledgeKey, periods: u8, showPublicly: bool,
                           event: ProgramEvent, ix: Index, n: Notes, now: int)
    requires Matches(c, ix, n) && Contributed(c, after, tx.clock, key, periods, showPublicly) && PledgeInv(after, key)
    requires var p := after.pledges[key];
             event == Pledged(key.creator, key.supporter, periods, p.startedAt, p.expiresAt, p.periodsTotal,
                              p.contributions, showPublicly, tx.clock.slot)
    requires Storable(w, tx, event)
    ensures Refined(c, after, tx, ix, n, EventWrites(w, tx, event, now))
  {
    var writes := EventWrites(w, tx, event, now);
    assert writes == [UpsertPledge(RowOf(key, after.pledges[key], tx.signature)), writes[1]];
    ContributeRefined(c, after, tx, key, periods, showPublicly, ix, n, writes[1].contribution);
  }

  lemma PledgeCallRefined(w: World, c: Chain, tx: Tx, supporter: Address, creator: Address, periods: u8, showPublicly: bool,
                          ix: Index, n: Notes, now: int)
    requires Inv(c) && Matches(c, ix, n)
    requires Contribute(w.deployment, c, tx.clock, Instructions(tx.instructions), supporter, creator, periods, showPublicly).Ok?
    requires Storable(w, tx, Contribute(w.deployment, c, tx.clock, Instructions(tx.instructions), supporter, creator,
                                        periods, showPublicly).value.1)
    ensures var (after, event) := Contribute(w.deployment, c, tx.clock, Instructions(tx.instructions), supporter, creator,
                                             periods, showPublicly).value;
            Refined(c, after, tx, ix, n, EventWrites(w, tx, event, now))
  {
    var (after, event) := Contribute(w.deployment, c, tx.clock, Instructions(tx.instructions), supporter, creator,
                                     periods, showPublicly).value;
    var key := PledgeKey(creator, supporter);
    ContributeEffect(w.deployment, c, tx.clock, Instructions(tx.instructions), supporter, creator, periods, showPublicly);
    ContributedKeeps(c, after, tx.clock, key, periods, showPublicly);
    PledgeEventRefined(w, c, after, tx, key, periods, showPublicly, event, ix, n, now);
  }

  lemma ShowCallRefined(w: World, c: Chain, tx: Tx, supporter: Address, creator: Address, showPublicly: bool,
                        ix: Index, n: Notes, now: int)
    requires Matches(c, ix, n) && Show(c, tx.clock, supporter, creator, showPublicly).Ok?
    requires PledgeKey(creator, supporter) in c.pledges && PledgeInv(c, PledgeKey(creator, supporter))
    ensures var (after, event) := Show(c, tx.clock, supporter, creator, showPublicly).value;
            Refined(c, after, tx, ix, n, EventWrites(w, tx, event, now))
  {
    hide Refined, Matches;
    ShowRefined(c, Show(c, tx.clock, supporter, creator, showPublicly).value.0, tx, PledgeKey(creator, supporter),
                showPublicly, ix, n);
  }

  lemma RegisterCallRefined(w: World, c: Chain, tx: Tx, wallet: Address, handle: Text, name: Text, description: Text,
                            ix: Index, n: Notes, now: int)
    requires Inv(c) && Matches(c, ix, n)
    requires Register(c, tx.clock, wallet, handle, name, description).Ok?
    ensures var (after, event) := Register(c, tx.clock, wallet, handle, name, description).value;
            Refined(c, after, tx, ix, n, EventWrites(w, tx, event, now))
  {
    hide Refined, Matches, Inv, WithoutNuls;
    RegisterRefined(c, tx, wallet, handle, name, description, ix, n, now);
    HandleHasNoNuls(handle);
  }

  lemma UpdateCallRefined(w: World, c: Chain, tx: Tx, wallet: Address, name: Text, description: Text, suggestedAmount: u64,
                          ix: Index, n: Notes, now: int)
    requires Inv(c) && Matches(c, ix, n)
    requires Update(c, tx.clock, wallet, name, description, suggestedAmount).Ok?
    ensures var (after, event) := Update(c, tx.clock, wallet, name, description, suggestedAmount).value;
            Refined(c, after, tx, ix, n, EventWrites(w, tx, event, now))
  {
    hide Refined, Matches, Inv, WithoutNuls;
    UpdateRefined(c, tx, wallet, name, description, suggestedAmount, ix, n, now);
    HandleHasNoNuls(HandleOf(c.creators[wallet].handle));
  }

  lemma RunRefined(w: World, c: Chain, tx: Tx, call: Call, ix: Index, n: Notes, now: int)
    requires Inv(c) && Matches(c, ix, n)
    requires Run(w.deployment, c, tx.clock, Instructions(tx.instructions), call).Ok?
    requires Storable(w, tx, Run(w.deployment, c, tx.clock, Instructions(tx.instructions), call).value.1)
    ensures var step := Run(w.deployment, c, tx.clock, Instructions(tx.instructions), call).value;
            Refined(c, step.0, tx, ix, n, EventWrites(w, tx, step.1, now))
  {
    match call {
      case RegisterCreator(wallet, handle, name, description) =>
        RegisterCallRefined(w, c, tx, wallet, handle, name, description, ix, n, now);
      case UpdateCreator(wallet, name, description, suggestedAmount) =>
        UpdateCallRefined(w, c, tx, wallet, name, description, suggestedAmount, ix, n, now);
      case MakePledge(supporter, creator, periods, showPublicly) =>
        PledgeCallRefined(w, c, tx, supporter, creator, periods, showPublicly, ix, n, now);
      case SetVisibility(supporter, creator, showPublicly) =>
        assert PledgeInv(c, PledgeKey(creator, supporter));
        ShowCallRefined(w, c, tx, supporter, creator, showPublicly, ix, n, now);
    }
  }

  lemma SlotsTwice(slots: map<Address, int>, c0: map<Address, Creator>, c1: map<Address, Creator>, c2: map<Address, Creator>, slot: int)
    requires c0.Keys <= c1.Keys <= c2.Keys
    ensures NoteSlots(NoteSlots(slots, c0, c1, slot), c1, c2, slot) == NoteSlots(slots, c0, c2, slot)
  {
  }

  // The keys of pledges written between two states, each of which only adds to the one before.
  lemma ContributedTwice(k: PledgeKey, p0: map<PledgeKey, Pledge>, p1: map<PledgeKey, Pledge>, p2: map<PledgeKey, Pledge>)
    requires p0.Keys <= p1.Keys <= p2.Keys
    requires k in p0 ==> p1[k].contributions >= p0[k].contributions
    requires k in p1 ==> p2[k].contributions >= p1[k].contributions
    ensures (k in p2 && (k !in p0 || p2[k].contributions != p0[k].contributions))
            <==> (k in p1 && (k !in p0 || p1[k].contributions != p0[k].contributions))
                 || (k in p2 && (k !in p1 || p2[k].contributions != p1[k].contributions))
  {
  }

  lemma SigsTwice(sigs: map<PledgeKey, Signature>, p0: map<PledgeKey, Pledge>, p1: map<PledgeKey, Pledge>,
                  p2: map<PledgeKey, Pledge>, sig: Signature)
    requires p0.Keys <= p1.Keys <= p2.Keys
    requires forall k :: k in p0 ==> p1[k].contributions >= p0[k].contributions
    requires forall k :: k in p1 ==> p2[k].contributions >= p1[k].contributions
    ensures NoteSigs(NoteSigs(sigs, p0, p1, sig), p1, p2, sig) == NoteSigs(sigs, p0, p2, sig)
  {
    var twice, once := NoteSigs(NoteSigs(sigs, p0, p1, sig), p1, p2, sig), NoteSigs(sigs, p0, p2, sig);
    forall k ensures (k in twice <==> k in once) && (k in once ==> twice[k] == once[k]) {
      ContributedTwice(k, p0, p1, p2);
    }
  }

  lemma NoteTwice(n: Notes, c0: Chain, c1: Chain, c2: Chain, tx: Tx)
    requires Extends(c0, c1) && Extends(c1, c2)
    ensures Note(Note(n, c0, c1, tx), c1, c2, tx) == Note(n, c0, c2, tx)
  {
    SlotsTwice(n.slots, c0.creators, c1.creators, c2.creators, tx.clock.slot);
    SigsTwice(n.sigs, c0.pledges, c1.pledges, c2.pledges, tx.signature);
  }

  // The first call, then the rest on what it left.
  lemma RefinedThen(c0: Chain, c1: Chain, c2: Chain, tx: Tx, ix: Index, n: Notes, first: seq<Write>, rest: seq<Write>)
    requires Extends(c0, c1) && Extends(c1, c2)
    requires Refined(c0, c1, tx, ix, n, first)
    requires Refined(c1, c2, tx, ApplyWrites(ix, first).value, Note(n, c0, c1, tx), rest)
    ensures Refined(c0, c2, tx, ix, n, first + rest)
  {
    ApplyAppend(ix, first, rest);
    NoteTwice(n, c0, c1, c2, tx);
  }

  lemma StorableRest(w: World, tx: Tx, first: ProgramEvent, rest: seq<ProgramEvent>)
    ensures AllStorable(w, tx, [first] + rest) <==> Storable(w, tx, first) && AllStorable(w, tx, rest)
  {
    assert ([first] + rest)[0] == first;
    assert forall i :: 0 <= i < |rest| ==> ([first] + rest)[i + 1] == rest[i];
    assert forall i :: 0 < i <= |rest| ==> ([first] + rest)[i] == rest[i - 1];
  }

  lemma {:induction false} CallsRefined(w: World, c: Chain, tx: Tx, calls: seq<Call>, ix: Index, n: Notes, now: int)
    requires Inv(c) && Matches(c, ix, n)
    requires RunCalls(w.deployment, c, tx.clock, tx.instructions, calls).Ok?
    requires AllStorable(w, tx, RunCalls(w.deployment, c, tx.clock, tx.instructions, calls).value.1)
    ensures var done := RunCalls(w.deployment, c, tx.clock, tx.instructions, calls).value;
            Refined(c, done.0, tx, ix, n, AllWrites(w, tx, done.1, now))
    decreases |calls|
  {
    if calls == [] {
      Untouched(c, n, tx.clock.slot, tx.signature);
    } else {
      var first := Run(w.deployment, c, tx.clock, Instructions(tx.instructions), calls[0]).value;
      var rest := RunCalls(w.deployment, first.0, tx.clock, tx.instructions, calls[1..]).value;
      var writes := EventWrites(w, tx, first.1, now);
      StorableRest(w, tx, first.1, rest.1);
      RunRefined(w, c, tx, calls[0], ix, n, now);
      RunKeeps(w.deployment, c, tx.clock, Instructions(tx.instructions), calls[0]);
      CallsRefined(w, first.0, tx, calls[1..], ApplyWrites(ix, writes).value, Note(n, c, first.0, tx), now);
      RunExtends(w.deployment, c, tx.clock, Instructions(tx.instructions), calls[0]);
      RunCallsExtends(w.deployment, first.0, tx.clock, tx.instructions, calls[1..]);
      RefinedThen(c, first.0, rest.0, tx, ix, n, writes, AllWrites(w, tx, rest.1, now));
      assert ([first.1] + rest.1)[1..] == rest.1;
    }
  }

  // The writes of a history, transaction by transaction, at the times they are applied.
  function HistoryWrites(w: World, history: seq<Tx>, now: nat -> int): seq<Write> {
    if history == [] then [] else
      var n := |history| - 1;
      HistoryWrites(w, history[..n], now)
      + AllWrites(w, history[n], EventsOf(w.deployment, ChainAfter(w.deployment, history[..n]), history[n]), now(n))
  }

  // The index after the worker handled a history in order, each transaction on either channel.
  function IndexAfter(w: World, history: seq<Tx>, live: nat -> bool, now: nat -> int): Result<Index, ApplyError> {
    if history == [] then Ok(EMPTY) else
      var n := |history| - 1;
      match IndexAfter(w, history[..n], live, now)
      case Err(e) => Err(e)
      case Ok(ix) =>
        Handle(w.reader, w.rpc, now(n), ix, Delivered(w, ChainAfter(w.deployment, history[..n]), history[n], live(n)))
  }

  lemma RecordedPrefix(w: World, history: seq<Tx>, n: nat)
    requires Recorded(w, history) && n <= |history|
    ensures Recorded(w, history[..n])
  {
    forall i | 0 <= i < n ensures history[..n][..i] == history[..i] {
    }
  }

  lemma {:induction false} StorableIsPlannable(w: World, tx: Tx, events: seq<ProgramEvent>)
    requires AllStorable(w, tx, events)
    ensures AllPlannable(w, tx, events)
  {
    forall i | 0 <= i < |events| ensures Plannable(w, tx, events[i]) {
      assert Storable(w, tx, events[i]);
    }
  }

  /** Handling one delivered transaction takes an index that matches the chain to one that matches
      the chain after it, as long as its pledges can be stored. */
  lemma TxRefined(w: World, c: Chain, tx: Tx, live: bool, now: int, ix: Index, n: Notes)
    requires Sound(w) && Logged(w, c, tx) && Inv(c) && Matches(c, ix, n)
    requires AllStorable(w, tx, EventsOf(w.deployment, c, tx))
    ensures var handled := Handle(w.reader, w.rpc, now, ix, Delivered(w, c, tx, live));
            && handled.Ok?
            && handled == ApplyWrites(ix, AllWrites(w, tx, EventsOf(w.deployment, c, tx), now))
            && Matches(After(w.deployment, c, tx), handled.value, Note(n, c, After(w.deployment, c, tx), tx))
  {
    WritesOfDelivered(w, c, tx, live, now);
    StorableIsPlannable(w, tx, EventsOf(w.deployment, c, tx));
    if Fails(w.deployment, c, tx) {
      Untouched(c, n, tx.clock.slot, tx.signature);
    } else {
      CallsRefined(w, c, tx, tx.calls, ix, n, now);
    }
  }

  lemma EventAppliedIsStorable(w: World, tx: Tx, event: ProgramEvent, now: int, ix: Index)
    requires Plannable(w, tx, event) && ApplyWrites(ix, EventWrites(w, tx, event, now)).Ok?
    ensures Storable(w, tx, event)
  {
    var writes := EventWrites(w, tx, event, now);
    if event.Pledged? {
      assert writes[1..] == [writes[1]];
      OneWrite(ApplyWrite(ix, writes[0]).value, writes[1]);
    }
  }

  lemma {:induction false} AppliedAreStorable(w: World, tx: Tx, events: seq<ProgramEvent>, now: int, ix: Index)
    requires AllPlannable(w, tx, events) && ApplyWrites(ix, AllWrites(w, tx, events, now)).Ok?
    ensures AllStorable(w, tx, events)
    decreases |events|
  {
    if events != [] {
      var first := EventWrites(w, tx, events[0], now);
      PlannableRest(w, tx, events);
      ApplyAppend(ix, first, AllWrites(w, tx, events[1..], now));
      EventAppliedIsStorable(w, tx, events[0], now, ix);
      AppliedAreStorable(w, tx, events[1..], now, ApplyWrites(ix, first).value);
      assert events == [events[0]] + events[1..];
      StorableRest(w, tx, events[0], events[1..]);
    }
  }

  /** What can stop the index: on an index that matches the chain, a transaction is handled exactly
      when each of its pledges can be stored, that is, the node serves its ciphertext and block time
      and its three times are dates. */
  lemma HandledIffStorable(w: World, c: Chain, tx: Tx, live: bool, now: int, ix: Index, n: Notes)
    requires Sound(w) && Logged(w, c, tx) && Inv(c) && Matches(c, ix, n)
    ensures Handle(w.reader, w.rpc, now, ix, Delivered(w, c, tx, live)).Ok?
            <==> AllStorable(w, tx, EventsOf(w.deployment, c, tx))
  {
    var events := EventsOf(w.deployment, c, tx);
    if AllStorable(w, tx, events) {
      TxRefined(w, c, tx, live, now, ix, n);
    } else {
      WritesOfDelivered(w, c, tx, live, now);
      if AllPlannable(w, tx, events) && ApplyWrites(ix, AllWrites(w, tx, events, now)).Ok? {
        AppliedAreStorable(w, tx, events, now, ix);
      }
    }
  }

  // A pledge event, as the program emits it: the term covers every period ever paid.
  predicate PaidUp(event: ProgramEvent) {
    event.Pledged? ==>
      event.contributions <= event.periodsTotal && event.expiresAt >= event.periodsTotal * PERIOD_SECONDS
  }

  lemma {:induction false} CallsPaidUp(d: Deployment, c: Chain, clock: Clock, list: seq<Instruction>, calls: seq<Call>)
    requires Inv(c) && RunCalls(d, c, clock, list, calls).Ok?
    ensures forall e :: e in RunCalls(d, c, clock, list, calls).value.1 ==> PaidUp(e)
    decreases |calls|
  {
    if calls != [] {
      var first := Run(d, c, clock, Instructions(list), calls[0]).value;
      RunKeeps(d, c, clock, Instructions(list), calls[0]);
      CallPaidUp(d, c, clock, list, calls[0]);
      CallsPaidUp(d, first.0, clock, list, calls[1..]);
    }
  }

  lemma CallPaidUp(d: Deployment, c: Chain, clock: Clock, list: seq<Instruction>, call: Call)
    requires Inv(c) && Run(d, c, clock, Instructions(list), call).Ok?
    requires Inv(Run(d, c, clock, Instructions(list), call).value.0)
    ensures PaidUp(Run(d, c, clock, Instructions(list), call).value.1)
  {
    if call.MakePledge? {
      var key := PledgeKey(call.creator, call.supporter);
      ContributeEffect(d, c, clock, Instructions(list), call.supporter, call.creator, call.periods, call.showPublicly);
      assert PledgeInv(Run(d, c, clock, Instructions(list), call).value.0, key);
    }
  }

  lemma EventsArePaidUp(d: Deployment, c: Chain, tx: Tx, e: ProgramEvent)
    requires Inv(c) && e in EventsOf(d, c, tx)
    ensures PaidUp(e)
  {
    if !Fails(d, c, tx) {
      CallsPaidUp(d, c, tx.clock, tx.instructions, tx.calls);
    }
  }

  /** The integer columns never come first: in every history, a pledge whose expiry is still a date has
      paid at most 3,333,333 periods, while the columns hold more than two thousand million. */
  lemma DatesComeFirst(d: Deployment, history: seq<Tx>, i: nat, e: ProgramEvent)
    requires i < |history| && e in EventsOf(d, ChainAfter(d, history[..i]), history[i]) && e.Pledged?
    ensures IsDate(e.expiresAt * 1000) ==> e.contributions <= e.periodsTotal <= 3_333_333 < INTEGER_MAX
  {
    hide EventsOf, ChainAfter, Inv;
    Reachable(d, history[..i]);
    EventsArePaidUp(d, ChainAfter(d, history[..i]), history[i], e);
  }

  /** The main refinement: for every history of the program, handling its transactions in chain
      order succeeds at every step and leaves the index equal to the accounts, row by row. */
  lemma {:induction false} IndexMatchesChain(w: World, history: seq<Tx>, live: nat -> bool, now: nat -> int)
    requires Recorded(w, history)
    ensures IndexAfter(w, history, live, now).Ok?
    ensures IndexAfter(w, history, live, now) == ApplyWrites(EMPTY, HistoryWrites(w, history, now))
    ensures Matches(ChainAfter(w.deployment, history), IndexAfter(w, history, live, now).value,
                    NotesAfter(w.deployment, history))
    decreases |history|
  {
    if history != [] {
      var n := |history| - 1;
      var init, tx := history[..n], history[n];
      RecordedPrefix(w, history, n);
      IndexMatchesChain(w, init, live, now);
      var c := ChainAfter(w.deployment, init);
      Reachable(w.deployment, init);
      TxRefined(w, c, tx, live(n), now(n), IndexAfter(w, init, live, now).value, NotesAfter(w.deployment, init));
      ApplyAppend(EMPTY, HistoryWrites(w, init, now), AllWrites(w, tx, EventsOf(w.deployment, c, tx), now(n)));
    }
  }

  // `totalSupporters` and `activeSupporters` of the profile query, `now` in milliseconds.
  ghost function TotalSupporters(ix: Index, creator: Address): nat {
    |set k | k in ix.pledges && ix.pledges[k].creator == creator|
  }

  ghost function ActiveSupporters(ix: Index, creator: Address, now: int): nat {
    |set k | k in ix.pledges && ix.pledges[k].creator == creator
             && ix.pledges[k].expiresAt + 259_200_000 > now|
  }

  ghost function ActivePledges(c: Chain, creator: Address, now: int): nat {
    |set k | k in c.pledges && k.creator == creator && IsActive(now, c.pledges[k].expiresAt)|
  }

  lemma SamePledgesOf(c: Chain, pledges: map<PledgeKey, PledgeRow>, sigs: map<PledgeKey, Signature>, creator: Address)
    requires PledgesMatch(c.pledges, pledges, sigs)
    ensures (set k | k in pledges && pledges[k].creator == creator) == PledgesOf(c, creator)
  {
  }

  lemma TotalCounted(c: Chain, ix: Index, n: Notes, creator: Address)
    requires creator in c.creators && CreatorInv(c, creator) && PledgesMatch(c.pledges, ix.pledges, n.sigs)
    ensures TotalSupporters(ix, creator) == c.creators[creator].pledgesTotal
  {
    SamePledgesOf(c, ix.pledges, n.sigs, creator);
  }

  lemma ActiveCounted(c: Chain, ix: Index, n: Notes, creator: Address, at: int)
    requires PledgesMatch(c.pledges, ix.pledges, n.sigs)
    ensures ActiveSupporters(ix, creator, at * 1000) == ActivePledges(c, creator, at)
  {
    assert (set k | k in ix.pledges && ix.pledges[k].creator == creator
                    && ix.pledges[k].expiresAt + 259_200_000 > at * 1000)
        == (set k | k in c.pledges && k.creator == creator && IsActive(at, c.pledges[k].expiresAt));
  }

  /** Every counter of a profile is the chain's own: the total is `pledges_total` of the account,
      and the active count at any second counts the active pledge accounts. */
  lemma CountersFromChain(w: World, history: seq<Tx>, live: nat -> bool, now: nat -> int, creator: Address, at: int)
    requires Recorded(w, history) && creator in ChainAfter(w.deployment, history).creators
    ensures IndexAfter(w, history, live, now).Ok?
    ensures var c, ix := ChainAfter(w.deployment, history), IndexAfter(w, history, live, now).value;
            && TotalSupporters(ix, creator) == c.creators[creator].pledgesTotal
            && ActiveSupporters(ix, creator, at * 1000) == ActivePledges(c, creator, at)
  {
    IndexMatchesChain(w, history, live, now);
    Reachable(w.deployment, history);
    var c, ix := ChainAfter(w.deployment, history), IndexAfter(w, history, live, now).value;
    assert CreatorInv(c, creator);
    TotalCounted(c, ix, NotesAfter(w.deployment, history), creator);
    ActiveCounted(c, ix, NotesAfter(w.deployment, history), creator, at);
  }
}
