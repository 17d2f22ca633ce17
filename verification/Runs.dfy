/** Transactions, runs of the program, and what every reachable chain state keeps. */
module Runs {
  import opened Common
  import opened Periods
  import opened Introspect
  import opened Program
  import opened Logs

  /** A confirmed transaction: where it landed, its top-level instructions, the calls of this
      program it makes in order (directly or through other programs), and what it logged. */
  datatype Tx = Tx(
    signature: Signature, clock: Clock, blockTime: Option<int>,
    instructions: seq<Instruction>, calls: seq<Call>, trace: Trace)

  type Outcome = Result<(Chain, seq<ProgramEvent>), ProgramError>

  // The calls of one transaction, each on the accounts the previous one left.
  function RunCalls(d: Deployment, c: Chain, clock: Clock, list: seq<Instruction>, calls: seq<Call>): Outcome
    decreases |calls|
  {
    if calls == [] then Ok((c, []))
    else match Run(d, c, clock, Instructions(list), calls[0])
      case Err(e) => Err(e)
      case Ok(first) =>
        match RunCalls(d, first.0, clock, list, calls[1..])
        case Err(e) => Err(e)
        case Ok(rest) => Ok((rest.0, [first.1] + rest.1))
  }

  function RunTx(d: Deployment, c: Chain, tx: Tx): Outcome {
    RunCalls(d, c, tx.clock, tx.instructions, tx.calls)
  }

  predicate Fails(d: Deployment, c: Chain, tx: Tx) {
    RunTx(d, c, tx).Err?
  }

  // A failed transaction changes no account.
  function After(d: Deployment, c: Chain, tx: Tx): Chain {
    match RunTx(d, c, tx)
    case Ok(done) => done.0
    case Err(_) => c
  }

  // The events that count: those of a transaction that succeeds.
  function EventsOf(d: Deployment, c: Chain, tx: Tx): seq<ProgramEvent> {
    match RunTx(d, c, tx)
    case Ok(done) => done.1
    case Err(_) => []
  }

  const GENESIS := Chain(map[], map[], map[])

  // The chain after a history, oldest transaction first.
  function ChainAfter(d: Deployment, history: seq<Tx>): Chain {
    if history == [] then GENESIS
    else After(d, ChainAfter(d, history[..|history| - 1]), history[|history| - 1])
  }

  ghost function PledgesOf(c: Chain, creator: Address): set<PledgeKey> {
    set k | k in c.pledges && k.creator == creator
  }

  ghost predicate CreatorInv(c: Chain, w: Address)
    requires w in c.creators
  {
    var creator := c.creators[w];
    var handle := HandleOf(creator.handle);
    && creator.wallet == w
    && IsValidHandle(handle)
    && creator.handle == Padded(handle)
    && handle in c.handles && c.handles[handle] == w
    && creator.pledgesTotal == |PledgesOf(c, w)|
  }

  ghost predicate PledgeInv(c: Chain, k: PledgeKey)
    requires k in c.pledges
  {
    var p := c.pledges[k];
    && k.creator in c.creators
    && p.creator == k.creator && p.supporter == k.supporter
    && 1 <= p.contributions <= p.periodsTotal <= MAX_PERIODS * p.contributions
    && p.expiresAt >= p.periodsTotal * PERIOD_SECONDS
  }

  ghost predicate Inv(c: Chain) {
    && (forall w :: w in c.creators ==> CreatorInv(c, w))
    && (forall k :: k in c.pledges ==> PledgeInv(c, k))
    && (forall h :: h in c.handles ==> c.handles[h] in c.creators && HandleOf(c.creators[c.handles[h]].handle) == h)
  }

  /** The handle read back from the zero-padded account is the one registered, for the program and
      for the browser alike. */
  lemma HandleReadBack(handle: Text)
    requires IsValidHandle(handle)
    ensures |Padded(handle)| == HANDLE_LEN
    ensures HandleOf(Padded(handle)) == handle
    ensures HandleFromBytes(Padded(handle)) == handle
  {
    var bytes := Padded(handle);
    assert forall i :: 0 <= i < |handle| ==> bytes[i] == handle[i] != 0;
    assert |handle| < HANDLE_LEN ==> bytes[|handle|] == 0;
    assert FirstZero(bytes) == |handle|;
    assert bytes[..|handle|] == handle;
    DropZeros(handle, HANDLE_LEN - |handle|);
  }

  lemma {:induction false} DropZeros(handle: Text, n: nat)
    requires handle != [] && handle[|handle| - 1] != 0
    ensures HandleFromBytes(handle + seq(n, _ => 0 as byte)) == handle
  {
    var bytes := handle + seq(n, _ => 0 as byte);
    if n == 0 {
      assert bytes == handle;
    } else {
      assert bytes[..|bytes| - 1] == handle + seq(n - 1, _ => 0 as byte);
      DropZeros(handle, n - 1);
    }
  }

  // A new profile under a free handle.
  lemma RegisteredCreator(c: Chain, wallet: Address, handle: Text, creator: Creator, after: Chain, w: Address)
    requires Inv(c) && wallet !in c.creators && handle !in c.handles && IsValidHandle(handle)
    requires creator.wallet == wallet && creator.handle == Padded(handle) && HandleOf(creator.handle) == handle
    requires creator.pledgesTotal == 0
    requires after == c.(creators := c.creators[wallet := creator], handles := c.handles[handle := wallet])
    requires w in after.creators
    ensures CreatorInv(after, w)
  {
    hide HandleOf, Padded, IsValidHandle;
    assert PledgesOf(after, w) == PledgesOf(c, w);
    if w == wallet {
      forall k | k in c.pledges ensures k.creator != wallet {
        assert PledgeInv(c, k);
      }
      assert PledgesOf(c, w) == {};
    } else {
      assert CreatorInv(c, w);
    }
  }

  lemma RegisteredKeeps(c: Chain, wallet: Address, handle: Text, creator: Creator, after: Chain)
    requires Inv(c) && wallet !in c.creators && handle !in c.handles && IsValidHandle(handle)
    requires creator.wallet == wallet && creator.handle == Padded(handle) && HandleOf(creator.handle) == handle
    requires creator.pledgesTotal == 0
    requires after == c.(creators := c.creators[wallet := creator], handles := c.handles[handle := wallet])
    ensures Inv(after)
  {
    hide HandleOf, Padded, IsValidHandle, CreatorInv;
    forall w | w in after.creators ensures CreatorInv(after, w) {
      RegisteredCreator(c, wallet, handle, creator, after, w);
    }
    forall k | k in after.pledges ensures PledgeInv(after, k) {
      assert PledgeInv(c, k);
    }
  }

  lemma RegisterKeeps(c: Chain, clock: Clock, wallet: Address, handle: Text, name: Text, description: Text)
    requires Inv(c) && Register(c, clock, wallet, handle, name, description).Ok?
    ensures Inv(Register(c, clock, wallet, handle, name, description).value.0)
  {
    var after := Register(c, clock, wallet, handle, name, description).value.0;
    HandleReadBack(handle);
    assert HandleSeed(handle) == handle;
    hide Inv, IsValidHandle;
    RegisteredKeeps(c, wallet, handle, after.creators[wallet], after);
  }

  lemma UpdateKeeps(c: Chain, clock: Clock, wallet: Address, name: Text, description: Text, suggestedAmount: u64)
    requires Inv(c) && Update(c, clock, wallet, name, description, suggestedAmount).Ok?
    ensures Inv(Update(c, clock, wallet, name, description, suggestedAmount).value.0)
  {
    var after := Update(c, clock, wallet, name, description, suggestedAmount).value.0;
    forall w | w in after.creators ensures CreatorInv(after, w) {
      assert PledgesOf(after, w) == PledgesOf(c, w);
      assert CreatorInv(c, w);
    }
    forall k | k in after.pledges ensures PledgeInv(after, k) {
      assert PledgeInv(c, k);
    }
  }

  lemma PledgeCounted(c: Chain, key: PledgeKey, pledge: Pledge, w: Address)
    ensures var after := c.(pledges := c.pledges[key := pledge]);
            |PledgesOf(after, w)| == |PledgesOf(c, w)| + if key !in c.pledges && w == key.creator then 1 else 0
  {
    var after := c.(pledges := c.pledges[key := pledge]);
    if key !in c.pledges && w == key.creator {
      assert PledgesOf(after, w) == PledgesOf(c, w) + {key};
    } else {
      assert PledgesOf(after, w) == PledgesOf(c, w);
    }
  }

  lemma CreatorKept(c: Chain, key: PledgeKey, account: Creator, pledge: Pledge, w: Address)
    requires key.creator in c.creators && w in c.creators && CreatorInv(c, w)
    requires account == c.creators[key.creator].(pledgesTotal := account.pledgesTotal)
    requires account.pledgesTotal == c.creators[key.creator].pledgesTotal + if key in c.pledges then 0 else 1
    ensures CreatorInv(c.(creators := c.creators[key.creator := account], pledges := c.pledges[key := pledge]), w)
  {
    var after := c.(creators := c.creators[key.creator := account], pledges := c.pledges[key := pledge]);
    PledgeCounted(c, key, pledge, w);
    assert PledgesOf(after, w) == PledgesOf(c.(pledges := c.pledges[key := pledge]), w);
    assert after.creators[w].handle == c.creators[w].handle;
  }

  // Writing one pledge of a registered creator, and counting it when its account is new.
  lemma PledgeWritten(c: Chain, key: PledgeKey, account: Creator, pledge: Pledge, after: Chain)
    requires Inv(c) && key.creator in c.creators
    requires account == c.creators[key.creator].(pledgesTotal := account.pledgesTotal)
    requires account.pledgesTotal == c.creators[key.creator].pledgesTotal + if key in c.pledges then 0 else 1
    requires pledge.creator == key.creator && pledge.supporter == key.supporter
    requires 1 <= pledge.contributions <= pledge.periodsTotal <= MAX_PERIODS * pledge.contributions
    requires pledge.expiresAt >= pledge.periodsTotal * PERIOD_SECONDS
    requires after == c.(creators := c.creators[key.creator := account], pledges := c.pledges[key := pledge])
    ensures Inv(after)
  {
    forall w | w in after.creators ensures CreatorInv(after, w) {
      assert CreatorInv(c, w);
      CreatorKept(c, key, account, pledge, w);
    }
    forall k | k in after.pledges ensures PledgeInv(after, k) {
      if k != key { assert PledgeInv(c, k); }
    }
    forall h | h in after.handles
      ensures after.handles[h] in after.creators && HandleOf(after.creators[after.handles[h]].handle) == h
    {
      assert after.creators[after.handles[h]].handle == c.creators[c.handles[h]].handle;
    }
  }

  // The counters and the expiry of a pledge account stay within their machine types.
  predicate RoomFor(clock: Clock, p: Pledge, periods: u8) {
    && p.periodsTotal + periods <= U32_MAX
    && p.contributions < U32_MAX
    && Max(clock.unixTimestamp, p.expiresAt) + periods * 2_592_000 <= I64_MAX
  }

  ghost predicate Acceptable(d: Deployment, c: Chain, clock: Clock, sysvar: Sysvar, supporter: Address, creator: Address, periods: u8) {
    var key := PledgeKey(creator, supporter);
    && d.mint.Some? && creator in c.creators
    && 1 <= periods <= 12
    && sysvar.Instructions? && Backed(sysvar.list, Expected(d, d.mint.value, supporter, creator))
    && RoomFor(clock, PledgeAt(c, key), periods)
    && (key !in c.pledges ==> c.creators[creator].pledgesTotal < U64_MAX)
  }

  // Acceptance, once the accounts are there and the verdict of the scan is known.
  lemma AcceptedGiven(d: Deployment, c: Chain, clock: Clock, list: seq<Instruction>, supporter: Address,
                      creator: Address, periods: u8, showPublicly: bool, backed: bool)
    requires d.mint.Some? && creator in c.creators && c.creators[creator].wallet == creator
    requires Verdict(list, Expected(d, d.mint.value, supporter, creator), None).None? <==> backed
    requires PledgeAt(c, PledgeKey(creator, supporter)).contributions == 0 <==> PledgeKey(creator, supporter) !in c.pledges
    ensures Contribute(d, c, clock, Instructions(list), supporter, creator, periods, showPublicly).Ok?
            <==> && 1 <= periods <= 12 && backed
                 && RoomFor(clock, PledgeAt(c, PledgeKey(creator, supporter)), periods)
                 && (PledgeKey(creator, supporter) !in c.pledges ==> c.creators[creator].pledgesTotal < U64_MAX)
  {
  }

  /** A pledge is accepted exactly when its transaction carries a matching confidential transfer
      from the supporter to a registered creator, for one to twelve periods, within machine range. */
  lemma AcceptedIff(d: Deployment, c: Chain, clock: Clock, sysvar: Sysvar, supporter: Address,
                    creator: Address, periods: u8, showPublicly: bool)
    requires Inv(c)
    ensures Contribute(d, c, clock, sysvar, supporter, creator, periods, showPublicly).Ok?
            <==> Acceptable(d, c, clock, sysvar, supporter, creator, periods)
  {
    var key := PledgeKey(creator, supporter);
    if d.mint.Some? && creator in c.creators && sysvar.Instructions? {
      var expected := Expected(d, d.mint.value, supporter, creator);
      assert CreatorInv(c, creator);
      if key in c.pledges { assert PledgeInv(c, key); }
      VerdictAccepts(sysvar.list, expected, None);
      AcceptedGiven(d, c, clock, sysvar.list, supporter, creator, periods, showPublicly, Backed(sysvar.list, expected));
    }
  }

  // What one accepted contribution does to the accounts.
  ghost predicate Contributed(c: Chain, after: Chain, clock: Clock, key: PledgeKey, periods: u8, showPublicly: bool) {
    && key.creator in c.creators && key.creator in after.creators && key in after.pledges
    && 1 <= periods <= MAX_PERIODS
    && var before, pledge := PledgeAt(c, key), after.pledges[key];
    && var account := after.creators[key.creator];
    && after == Chain(c.creators[key.creator := account], c.handles, c.pledges[key := pledge])
    && account == c.creators[key.creator].(pledgesTotal := account.pledgesTotal)
    && account.pledgesTotal == c.creators[key.creator].pledgesTotal + (if key in c.pledges then 0 else 1)
    && ExtendExpiry(clock.unixTimestamp, before.expiresAt, periods).Ok?
    && pledge.creator == key.creator && pledge.supporter == key.supporter
    && pledge.startedAt == (if key in c.pledges then before.startedAt else clock.unixTimestamp)
    && pledge.expiresAt == ExtendExpiry(clock.unixTimestamp, before.expiresAt, periods).value
    && pledge.periodsTotal == before.periodsTotal + periods
    && pledge.contributions == before.contributions + 1
    && pledge.showPublicly == showPublicly
    && pledge.lastSlot == clock.slot
  }

  lemma ContributeEffect(d: Deployment, c: Chain, clock: Clock, sysvar: Sysvar, supporter: Address,
                         creator: Address, periods: u8, showPublicly: bool)
    requires Inv(c) && Contribute(d, c, clock, sysvar, supporter, creator, periods, showPublicly).Ok?
    ensures var (after, event) := Contribute(d, c, clock, sysvar, supporter, creator, periods, showPublicly).value;
            var key := PledgeKey(creator, supporter);
            && Contributed(c, after, clock, key, periods, showPublicly)
            && var p := after.pledges[key];
            && event == Pledged(creator, supporter, periods, p.startedAt, p.expiresAt, p.periodsTotal,
                                p.contributions, showPublicly, clock.slot)
  {
    assert CreatorInv(c, creator);
    var key := PledgeKey(creator, supporter);
    if key in c.pledges { assert PledgeInv(c, key); }
  }

  // Every refusal of a pledge, in the order in which they are found.
  ghost predicate RefusedFor(d: Deployment, c: Chain, clock: Clock, sysvar: Sysvar, key: PledgeKey, periods: u8,
                             error: ProgramError)
  {
    if d.mint.None? || key.creator !in c.creators then error == AccountMissing
    else if sysvar.Foreign? then error == ForeignSysvar
    else if !(1 <= periods <= 12) then error == InvalidPeriods
    else
      var expected := Expected(d, d.mint.value, key.supporter, key.creator);
      if !Backed(sysvar.list, expected) then Some(error) == Verdict(sysvar.list, expected, None)
      else error == ArithmeticOverflow
  }

  lemma RefusedGiven(d: Deployment, c: Chain, clock: Clock, sysvar: Sysvar, key: PledgeKey, periods: u8, showPublicly: bool)
    requires d.mint.Some? && key.creator in c.creators ==> c.creators[key.creator].wallet == key.creator
    requires d.mint.Some? && sysvar.Instructions? ==>
               (Backed(sysvar.list, Expected(d, d.mint.value, key.supporter, key.creator))
                <==> Verdict(sysvar.list, Expected(d, d.mint.value, key.supporter, key.creator), None).None?)
    ensures var r := Contribute(d, c, clock, sysvar, key.supporter, key.creator, periods, showPublicly);
            r.Err? ==> RefusedFor(d, c, clock, sysvar, key, periods, r.error)
  {
    hide Verdict, Backed;
  }

  /** A refused pledge names the first thing that is wrong with it; of a transaction without a matching
      transfer, what its scan reports. */
  lemma PledgeRefusals(d: Deployment, c: Chain, clock: Clock, sysvar: Sysvar, supporter: Address,
                       creator: Address, periods: u8, showPublicly: bool)
    requires Inv(c)
    ensures var r := Contribute(d, c, clock, sysvar, supporter, creator, periods, showPublicly);
            r.Err? ==> RefusedFor(d, c, clock, sysvar, PledgeKey(creator, supporter), periods, r.error)
  {
    if creator in c.creators {
      assert CreatorInv(c, creator);
    }
    hide Contribute, RefusedFor;
    if d.mint.Some? && sysvar.Instructions? {
      VerdictAccepts(sysvar.list, Expected(d, d.mint.value, supporter, creator), None);
    }
    RefusedGiven(d, c, clock, sysvar, PledgeKey(creator, supporter), periods, showPublicly);
  }

  // What asking for the flag `showPublicly` of the pledge `key` comes to.
  ghost predicate ShowDoes(c: Chain, clock: Clock, key: PledgeKey, showPublicly: bool, r: Program.Step) {
    && (r.Ok? <==> key in c.pledges)
    && (r.Err? ==> r.error == AccountMissing)
    && (r.Ok? ==>
          var (after, event) := r.value;
          && after.creators == c.creators && after.handles == c.handles && after.pledges.Keys == c.pledges.Keys
          && (forall k :: k in c.pledges && k != key ==> after.pledges[k] == c.pledges[k])
          && var was, p := c.pledges[key], after.pledges[key];
          && p.showPublicly == showPublicly
          && p == Pledge(was.creator, was.supporter, was.startedAt, was.expiresAt, was.periodsTotal,
                         was.contributions, p.showPublicly, was.lastSlot)
          && event == VisibilityChanged(key.creator, key.supporter, showPublicly, clock.slot))
  }

  lemma ShowGiven(c: Chain, clock: Clock, key: PledgeKey, showPublicly: bool)
    requires key in c.pledges ==> c.pledges[key].creator == key.creator && c.pledges[key].supporter == key.supporter
    ensures ShowDoes(c, clock, key, showPublicly, Show(c, clock, key.supporter, key.creator, showPublicly))
  {
  }

  /** Changing the visibility succeeds exactly when the pledge account exists. It sets the flag to the
      argument, leaves every other field and account alone, and reports the pledge, the argument and
      the slot. */
  lemma ShowEffect(c: Chain, clock: Clock, supporter: Address, creator: Address, showPublicly: bool)
    requires Inv(c)
    ensures ShowDoes(c, clock, PledgeKey(creator, supporter), showPublicly, Show(c, clock, supporter, creator, showPublicly))
  {
    hide ShowDoes, Show;
    var key := PledgeKey(creator, supporter);
    if key in c.pledges {
      assert PledgeInv(c, key);
    }
    ShowGiven(c, clock, key, showPublicly);
  }

  // Lower-case letters, digits and dashes, 3 to 32 of them.
  predicate LegalHandle(handle: Text) {
    && 3 <= |handle| <= 32
    && forall i :: 0 <= i < |handle| ==> 97 <= handle[i] <= 122 || 48 <= handle[i] <= 57 || handle[i] == 45
  }

  lemma ValidIsLegal(handle: Text)
    ensures IsValidHandle(handle) <==> LegalHandle(handle)
  {
    forall b: byte ensures IsHandleByte(b) <==> 97 <= b <= 122 || 48 <= b <= 57 || b == 45 {
      assert 'a' as int == 97 && 'z' as int == 122 && '0' as int == 48 && '9' as int == 57 && '-' as int == 45;
    }
  }

  // The refusals of `register_creator`, in the order in which they are found.
  predicate RegisterRefused(c: Chain, wallet: Address, handle: Text, name: Text, description: Text, error: ProgramError) {
    if wallet in c.creators || handle[..Min(|handle|, 32)] in c.handles then error == AccountInUse
    else if !LegalHandle(handle) then error == InvalidHandle
    else if |name| > 64 then error == NameTooLong
    else |description| > 256 && error == DescriptionTooLong
  }

  ghost predicate RegisterDoes(c: Chain, clock: Clock, wallet: Address, handle: Text, name: Text, description: Text, r: Program.Step) {
    && (r.Ok? <==> wallet !in c.creators && handle !in c.handles && LegalHandle(handle)
                   && |name| <= 64 && |description| <= 256)
    && (r.Err? ==> RegisterRefused(c, wallet, handle, name, description, r.error))
    && (r.Ok? ==>
          var (after, event) := r.value;
          && after.pledges == c.pledges
          && after.creators.Keys == c.creators.Keys + {wallet} && after.handles.Keys == c.handles.Keys + {handle}
          && (forall w :: w in c.creators ==> after.creators[w] == c.creators[w])
          && (forall h :: h in c.handles ==> after.handles[h] == c.handles[h])
          && after.handles[handle] == wallet
          && var p := after.creators[wallet];
          && p == Creator(wallet, p.handle, name, description, 0, 0, clock.unixTimestamp)
          && Holds(p.handle, handle)
          && event == CreatorRegistered(wallet, handle, name, description, 0, clock.slot))
  }

  // 32 bytes: the handle and zeros behind it.
  ghost predicate Holds(bytes: seq<byte>, handle: Text) {
    |bytes| == 32 && handle <= bytes && forall i :: |handle| <= i < 32 ==> bytes[i] == 0
  }

  /** Registering succeeds exactly for a new wallet and a free legal handle, with texts within their
      limits. It creates one profile, dated by the clock, and one handle account that leads to it. */
  lemma RegisterEffect(c: Chain, clock: Clock, wallet: Address, handle: Text, name: Text, description: Text)
    ensures RegisterDoes(c, clock, wallet, handle, name, description,
                         Register(c, clock, wallet, handle, name, description))
  {
    ValidIsLegal(handle);
    assert |handle| <= 32 ==> HandleSeed(handle) == handle;
    hide IsValidHandle, LegalHandle;
  }

  // The refusals of `update_creator`, in the order in which they are found.
  predicate UpdateRefused(c: Chain, wallet: Address, name: Text, description: Text, error: ProgramError) {
    if wallet !in c.creators then error == AccountMissing
    else if |name| > 64 then error == NameTooLong
    else |description| > 256 && error == DescriptionTooLong
  }

  ghost predicate UpdateDoes(c: Chain, clock: Clock, wallet: Address, name: Text, description: Text, suggestedAmount: u64, r: Program.Step) {
    && (r.Ok? <==> wallet in c.creators && |name| <= 64 && |description| <= 256)
    && (r.Err? ==> UpdateRefused(c, wallet, name, description, r.error))
    && (r.Ok? ==>
          var (after, event) := r.value;
          && after.pledges == c.pledges && after.handles == c.handles && after.creators.Keys == c.creators.Keys
          && (forall w :: w in c.creators && w != wallet ==> after.creators[w] == c.creators[w])
          && var was, p := c.creators[wallet], after.creators[wallet];
          && p == Creator(wallet, was.handle, name, description, suggestedAmount, was.pledgesTotal, was.createdAt)
          && event.CreatorUpdated? && event.handle in c.handles && c.handles[event.handle] == wallet
          && event == CreatorUpdated(wallet, event.handle, name, description, suggestedAmount, clock.slot))
  }

  lemma UpdateGiven(c: Chain, clock: Clock, wallet: Address, name: Text, description: Text, suggestedAmount: u64, handle: Text)
    requires wallet in c.creators ==>
               && c.creators[wallet].wallet == wallet && HandleOf(c.creators[wallet].handle) == handle
               && handle in c.handles && c.handles[handle] == wallet
    ensures UpdateDoes(c, clock, wallet, name, description, suggestedAmount,
                       Update(c, clock, wallet, name, description, suggestedAmount))
  {
    hide HandleOf;
  }

  /** Updating succeeds exactly for a registered wallet and texts within their limits. It replaces the
      two texts and the suggested amount, keeps the rest of the profile and every other account, and
      reports the handle that leads to the profile. */
  lemma UpdateEffect(c: Chain, clock: Clock, wallet: Address, name: Text, description: Text, suggestedAmount: u64)
    requires Inv(c)
    ensures UpdateDoes(c, clock, wallet, name, description, suggestedAmount,
                       Update(c, clock, wallet, name, description, suggestedAmount))
  {
    hide Update, UpdateDoes;
    var handle := if wallet in c.creators then HandleOf(c.creators[wallet].handle) else [];
    if wallet in c.creators {
      assert CreatorInv(c, wallet);
    }
    UpdateGiven(c, clock, wallet, name, description, suggestedAmount, handle);
  }

  lemma ContributedKeeps(c: Chain, after: Chain, clock: Clock, key: PledgeKey, periods: u8, showPublicly: bool)
    requires Inv(c) && Contributed(c, after, clock, key, periods, showPublicly)
    ensures Inv(after)
  {
    hide CreatorInv;
    if key in c.pledges { assert PledgeInv(c, key); }
    PledgeWritten(c, key, after.creators[key.creator], after.pledges[key], after);
  }

  lemma ShowKeeps(c: Chain, clock: Clock, supporter: Address, creator: Address, showPublicly: bool)
    requires Inv(c) && Show(c, clock, supporter, creator, showPublicly).Ok?
    ensures Inv(Show(c, clock, supporter, creator, showPublicly).value.0)
  {
    var after := Show(c, clock, supporter, creator, showPublicly).value.0;
    forall w | w in after.creators ensures CreatorInv(after, w) {
      assert PledgesOf(after, w) == PledgesOf(c, w);
      assert CreatorInv(c, w);
    }
    forall k | k in after.pledges ensures PledgeInv(after, k) {
      assert PledgeInv(c, k);
    }
  }

  lemma RunKeeps(d: Deployment, c: Chain, clock: Clock, sysvar: Sysvar, call: Call)
    requires Inv(c) && Run(d, c, clock, sysvar, call).Ok?
    ensures Inv(Run(d, c, clock, sysvar, call).value.0)
  {
    match call {
      case RegisterCreator(wallet, handle, name, description) =>
        RegisterKeeps(c, clock, wallet, handle, name, description);
      case UpdateCreator(wallet, name, description, suggestedAmount) =>
        UpdateKeeps(c, clock, wallet, name, description, suggestedAmount);
      case MakePledge(supporter, creator, periods, showPublicly) =>
        ContributeEffect(d, c, clock, sysvar, supporter, creator, periods, showPublicly);
        ContributedKeeps(c, Run(d, c, clock, sysvar, call).value.0, clock, PledgeKey(creator, supporter), periods, showPublicly);
      case SetVisibility(supporter, creator, showPublicly) =>
        ShowKeeps(c, clock, supporter, creator, showPublicly);
    }
  }

  lemma {:induction false} RunCallsKeeps(d: Deployment, c: Chain, clock: Clock, list: seq<Instruction>, calls: seq<Call>)
    requires Inv(c) && RunCalls(d, c, clock, list, calls).Ok?
    ensures Inv(RunCalls(d, c, clock, list, calls).value.0)
    decreases |calls|
  {
    if calls != [] {
      RunKeeps(d, c, clock, Instructions(list), calls[0]);
      RunCallsKeeps(d, Run(d, c, clock, Instructions(list), calls[0]).value.0, clock, list, calls[1..]);
    }
  }

  lemma AfterKeeps(d: Deployment, c: Chain, tx: Tx)
    requires Inv(c)
    ensures Inv(After(d, c, tx))
  {
    if !Fails(d, c, tx) {
      RunCallsKeeps(d, c, tx.clock, tx.instructions, tx.calls);
    }
  }

  /** Every reachable chain state: wallets, profiles and handles correspond one to one, each pledge
      belongs to a registered creator, and `pledges_total` counts the creator's pledge accounts. */
  lemma {:induction false} Reachable(d: Deployment, history: seq<Tx>)
    ensures Inv(ChainAfter(d, history))
    decreases |history|
  {
    if history != [] {
      Reachable(d, history[..|history| - 1]);
      AfterKeeps(d, ChainAfter(d, history[..|history| - 1]), history[|history| - 1]);
    }
  }

  /** Two creators never share a handle, on any reachable state. */
  lemma HandlesAreUnique(c: Chain, w1: Address, w2: Address)
    requires Inv(c) && w1 in c.creators && w2 in c.creators
    ensures HandleOf(c.creators[w1].handle) == HandleOf(c.creators[w2].handle) <==> w1 == w2
  {
    assert CreatorInv(c, w1) && CreatorInv(c, w2);
  }

  // Accounts only appear, a registered wallet keeps its handle, contributions are never taken back.
  ghost predicate Extends(c: Chain, later: Chain) {
    && c.creators.Keys <= later.creators.Keys
    && c.pledges.Keys <= later.pledges.Keys
    && (forall w :: w in c.creators ==> later.creators[w].handle == c.creators[w].handle)
    && (forall k :: k in c.pledges ==> later.pledges[k].contributions >= c.pledges[k].contributions)
  }

  lemma RunExtends(d: Deployment, c: Chain, clock: Clock, sysvar: Sysvar, call: Call)
    requires Run(d, c, clock, sysvar, call).Ok?
    ensures Extends(c, Run(d, c, clock, sysvar, call).value.0)
  {
  }

  lemma {:induction false} RunCallsExtends(d: Deployment, c: Chain, clock: Clock, list: seq<Instruction>, calls: seq<Call>)
    requires RunCalls(d, c, clock, list, calls).Ok?
    ensures Extends(c, RunCalls(d, c, clock, list, calls).value.0)
    decreases |calls|
  {
    if calls != [] {
      var first := Run(d, c, clock, Instructions(list), calls[0]).value.0;
      RunExtends(d, c, clock, Instructions(list), calls[0]);
      RunCallsExtends(d, first, clock, list, calls[1..]);
    }
  }

  lemma {:induction false} ChainExtends(d: Deployment, history: seq<Tx>, n: nat)
    requires n <= |history|
    ensures Extends(ChainAfter(d, history[..n]), ChainAfter(d, history))
    decreases |history| - n
  {
    if n == |history| {
      assert history[..n] == history;
    } else {
      ChainExtends(d, history, n + 1);
      var c := ChainAfter(d, history[..n]);
      assert history[..n + 1][..n] == history[..n];
      if !Fails(d, c, history[n]) {
        RunCallsExtends(d, c, history[n].clock, history[n].instructions, history[n].calls);
      }
    }
  }
}
