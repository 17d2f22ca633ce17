/** The on-chain program: creators, handles and pledges as accounts at derived addresses, one
    handler per instruction, one snapshot event per successful call. */
module Program {
  import opened Common
  import opened Periods
  import opened Introspect

  const HANDLE_LEN := 32
  const NAME_MAX_LEN := 64
  const DESCRIPTION_MAX_LEN := 256

  datatype Creator = Creator(
    wallet: Address, handle: seq<byte>, name: Text, description: Text,
    suggestedAmount: u64, pledgesTotal: u64, createdAt: i64)

  datatype Pledge = Pledge(
    creator: Address, supporter: Address, startedAt: i64, expiresAt: i64,
    periodsTotal: u32, contributions: u32, showPublicly: bool, lastSlot: u64)

  // The seeds of a pledge account.
  datatype PledgeKey = PledgeKey(creator: Address, supporter: Address)

  // All accounts of the program. A derived address is its seeds, so each kind is a map from them.
  datatype Chain = Chain(
    creators: map<Address, Creator>, handles: map<Text, Address>, pledges: map<PledgeKey, Pledge>)

  // What the deployment fixes: the mint of the `Config` account, once it exists, and the
  // derivation of an owner's token account.
  datatype Deployment = Deployment(mint: Option<Address>, tokenAccount: (Address, Address) -> Address)

  datatype Clock = Clock(slot: u64, unixTimestamp: i64)

  datatype ProgramEvent =
    | CreatorRegistered(wallet: Address, handle: Text, name: Text, description: Text,
                        suggestedAmount: u64, slot: u64)
    | CreatorUpdated(wallet: Address, handle: Text, name: Text, description: Text,
                     suggestedAmount: u64, slot: u64)
    | Pledged(creator: Address, supporter: Address, periods: u8, startedAt: i64, expiresAt: i64,
              periodsTotal: u32, contributions: u32, showPublicly: bool, slot: u64)
    | VisibilityChanged(creator: Address, supporter: Address, showPublicly: bool, slot: u64)

  // The instructions of the program with the accounts and arguments a caller chooses.
  datatype Call =
    | RegisterCreator(wallet: Address, handle: Text, name: Text, description: Text)
    | UpdateCreator(wallet: Address, name: Text, description: Text, suggestedAmount: u64)
    | MakePledge(supporter: Address, creator: Address, periods: u8, showPublicly: bool)
    | SetVisibility(supporter: Address, creator: Address, showPublicly: bool)

  type Step = Result<(Chain, ProgramEvent), ProgramError>

  predicate IsHandleByte(b: byte) {
    'a' as int <= b <= 'z' as int || '0' as int <= b <= '9' as int || b == '-' as int
  }

  predicate IsValidHandle(handle: Text) {
    && 3 <= |handle| <= HANDLE_LEN
    && forall i :: 0 <= i < |handle| ==> IsHandleByte(handle[i])
  }

  // The handle copied over the zero bytes of a fresh account.
  function Padded(handle: Text): seq<byte>
    requires |handle| <= HANDLE_LEN
  {
    handle + seq(HANDLE_LEN - |handle|, _ => 0 as byte)
  }

  // `position(|&b| b == 0).unwrap_or(len)`.
  function FirstZero(bytes: seq<byte>): (n: nat)
    ensures n <= |bytes|
    ensures forall i :: 0 <= i < n ==> bytes[i] != 0
    ensures n < |bytes| ==> bytes[n] == 0
  {
    if bytes == [] || bytes[0] == 0 then 0 else 1 + FirstZero(bytes[1..])
  }

  // The handle that `update_creator` reads back from the account.
  function HandleOf(bytes: seq<byte>): Text {
    bytes[..FirstZero(bytes)]
  }

  // `handleFromBytes` of the browser: every trailing zero byte is dropped.
  function HandleFromBytes(bytes: seq<byte>): Text {
    if bytes != [] && bytes[|bytes| - 1] == 0 then HandleFromBytes(bytes[..|bytes| - 1]) else bytes
  }

  // Seeds are cut to 32 bytes so that a long handle reaches the validity check.
  function HandleSeed(handle: Text): Text {
    handle[..Min(|handle|, HANDLE_LEN)]
  }

  const ZERO_PLEDGE := Pledge("", "", 0, 0, 0, 0, false, 0)

  function Expected(d: Deployment, mint: Address, supporter: Address, creator: Address): ExpectedTransfer {
    ExpectedTransfer(mint, d.tokenAccount(supporter, mint), d.tokenAccount(creator, mint), supporter)
  }

  function Register(c: Chain, clock: Clock, wallet: Address, handle: Text, name: Text, description: Text): Step {
    if wallet in c.creators || HandleSeed(handle) in c.handles then Err(AccountInUse)
    else if !IsValidHandle(handle) then Err(InvalidHandle)
    else if |name| > NAME_MAX_LEN then Err(NameTooLong)
    else if |description| > DESCRIPTION_MAX_LEN then Err(DescriptionTooLong)
    else
      var creator := Creator(wallet, Padded(handle), name, description, 0, 0, clock.unixTimestamp);
      Ok((c.(creators := c.creators[wallet := creator], handles := c.handles[handle := wallet]),
          CreatorRegistered(wallet, handle, name, description, 0, clock.slot)))
  }

  function Update(c: Chain, clock: Clock, wallet: Address, name: Text, description: Text, suggestedAmount: u64): Step {
    if wallet !in c.creators then Err(AccountMissing)
    else if |name| > NAME_MAX_LEN then Err(NameTooLong)
    else if |description| > DESCRIPTION_MAX_LEN then Err(DescriptionTooLong)
    else
      var creator := c.creators[wallet].(name := name, description := description, suggestedAmount := suggestedAmount);
      Ok((c.(creators := c.creators[wallet := creator]),
          CreatorUpdated(creator.wallet, HandleOf(creator.handle), name, description, suggestedAmount, clock.slot)))
  }

  function PledgeAt(c: Chain, key: PledgeKey): Pledge {
    if key in c.pledges then c.pledges[key] else ZERO_PLEDGE
  }

  function Contribute(d: Deployment, c: Chain, clock: Clock, sysvar: Sysvar, supporter: Address,
                      creator: Address, periods: u8, showPublicly: bool): Step
  {
    if d.mint.None? || creator !in c.creators then Err(AccountMissing)
    else if sysvar.Foreign? then Err(ForeignSysvar)
    else if !(1 <= periods <= MAX_PERIODS) then Err(InvalidPeriods)
    else
      var account := c.creators[creator];
      var refusal := ScanVerdict(sysvar, Expected(d, d.mint.value, supporter, account.wallet));
      if refusal.Some? then Err(refusal.value) else
      var key := PledgeKey(account.wallet, supporter);
      var before := PledgeAt(c, key);
      var first := before.contributions == 0;
      if first && account.pledgesTotal == U64_MAX then Err(ArithmeticOverflow) else
      match ExtendExpiry(clock.unixTimestamp, before.expiresAt, periods)
      case Err(e) => Err(e)
      case Ok(expiresAt) =>
        if before.periodsTotal + periods > U32_MAX || before.contributions == U32_MAX
        then Err(ArithmeticOverflow) else
        var after := Pledge(
          if first then account.wallet else before.creator,
          if first then supporter else before.supporter,
          if first then clock.unixTimestamp else before.startedAt,
          expiresAt, before.periodsTotal + periods, before.contributions + 1, showPublicly, clock.slot);
        var counted := if first then account.(pledgesTotal := account.pledgesTotal + 1) else account;
        Ok((c.(creators := c.creators[creator := counted], pledges := c.pledges[key := after]),
            Pledged(account.wallet, supporter, periods, after.startedAt, expiresAt,
                    after.periodsTotal, after.contributions, showPublicly, clock.slot)))
  }

  function Show(c: Chain, clock: Clock, supporter: Address, creator: Address, showPublicly: bool): Step {
    var key := PledgeKey(creator, supporter);
    if key !in c.pledges then Err(AccountMissing)
    else
      var after := c.pledges[key].(showPublicly := showPublicly);
      Ok((c.(pledges := c.pledges[key := after]),
          VisibilityChanged(after.creator, after.supporter, showPublicly, clock.slot)))
  }

  function Run(d: Deployment, c: Chain, clock: Clock, sysvar: Sysvar, call: Call): Step {
    match call
    case RegisterCreator(wallet, handle, name, description) =>
      Register(c, clock, wallet, handle, name, description)
    case UpdateCreator(wallet, name, description, suggestedAmount) =>
      Update(c, clock, wallet, name, description, suggestedAmount)
    case MakePledge(supporter, creator, periods, showPublicly) =>
      Contribute(d, c, clock, sysvar, supporter, creator, periods, showPublicly)
    case SetVisibility(supporter, creator, showPublicly) =>
      Show(c, clock, supporter, creator, showPublicly)
  }

  /** The accounts of the program and its handlers. A handler works on copies of its accounts and
      writes them back at its end, so a refusal leaves every account as it was. */
  class Accounts {
    const deployment: Deployment
    var creators: map<Address, Creator>
    var handles: map<Text, Address>
    var pledges: map<PledgeKey, Pledge>

    ghost function State(): Chain
      reads this
    {
      Chain(creators, handles, pledges)
    }

    ghost predicate Did(before: Chain, step: Step, r: Result<ProgramEvent, ProgramError>)
      reads this
    {
      match step
      case Ok(p) => State() == p.0 && r == Ok(p.1)
      case Err(e) => State() == before && r == Err(e)
    }

    constructor (deployment: Deployment)
      ensures this.deployment == deployment && State() == Chain(map[], map[], map[])
    {
      this.deployment := deployment;
      creators, handles, pledges := map[], map[], map[];
    }

    method RegisterHandler(clock: Clock, wallet: Address, handle: Text, name: Text, description: Text)
      returns (r: Result<ProgramEvent, ProgramError>)
      modifies this
      ensures Did(old(State()), Register(old(State()), clock, wallet, handle, name, description), r)
    {
      var seed := handle[..Min(|handle|, HANDLE_LEN)];
      if wallet in creators || seed in handles { return Err(AccountInUse); }
      var bytes := seq(HANDLE_LEN, _ => 0 as byte);
      if !IsValidHandle(handle) { return Err(InvalidHandle); }
      if |name| > NAME_MAX_LEN { return Err(NameTooLong); }
      if |description| > DESCRIPTION_MAX_LEN { return Err(DescriptionTooLong); }
      bytes := handle + bytes[|handle|..];
      assert bytes == Padded(handle) && seed == handle;
      creators := creators[wallet := Creator(wallet, bytes, name, description, 0, 0, clock.unixTimestamp)];
      handles := handles[seed := wallet];
      r := Ok(CreatorRegistered(wallet, handle, name, description, 0, clock.slot));
    }

    method UpdateHandler(clock: Clock, wallet: Address, name: Text, description: Text, suggestedAmount: u64)
      returns (r: Result<ProgramEvent, ProgramError>)
      modifies this
      ensures Did(old(State()), Update(old(State()), clock, wallet, name, description, suggestedAmount), r)
    {
      if wallet !in creators { return Err(AccountMissing); }
      if |name| > NAME_MAX_LEN { return Err(NameTooLong); }
      if |description| > DESCRIPTION_MAX_LEN { return Err(DescriptionTooLong); }
      var creator := creators[wallet];
      creator := creator.(name := name);
      creator := creator.(description := description);
      creator := creator.(suggestedAmount := suggestedAmount);
      var handleLen := 0;
      while handleLen < |creator.handle| && creator.handle[handleLen] != 0
        invariant handleLen <= FirstZero(creator.handle)
        decreases |creator.handle| - handleLen
      {
        handleLen := handleLen + 1;
      }
      creators := creators[wallet := creator];
      r := Ok(CreatorUpdated(creator.wallet, creator.handle[..handleLen], name, description,
                             suggestedAmount, clock.slot));
    }

    method PledgeHandler(clock: Clock, sysvar: Sysvar, supporter: Address, wallet: Address, periods: u8, showPublicly: bool)
      returns (r: Result<ProgramEvent, ProgramError>)
      modifies this
      ensures Did(old(State()),
                  Contribute(deployment, old(State()), clock, sysvar, supporter, wallet, periods, showPublicly), r)
    {
      if deployment.mint.None? || wallet !in creators { return Err(AccountMissing); }
      if sysvar.Foreign? { return Err(ForeignSysvar); }
      var mint := deployment.mint.value;
      var creator := creators[wallet];
      var key := PledgeKey(creator.wallet, supporter);
      var pledge := if key in pledges then pledges[key] else ZERO_PLEDGE;
      if !(1 <= periods <= MAX_PERIODS) { return Err(InvalidPeriods); }
      var refusal := FindConfidentialTransfer(
        sysvar,
        ExpectedTransfer(mint, deployment.tokenAccount(supporter, mint),
                         deployment.tokenAccount(creator.wallet, mint), supporter));
      if refusal.Some? { return Err(refusal.value); }
      if pledge.contributions == 0 {
        pledge := pledge.(creator := creator.wallet);
        pledge := pledge.(supporter := supporter);
        pledge := pledge.(startedAt := clock.unixTimestamp);
        if creator.pledgesTotal == U64_MAX { return Err(ArithmeticOverflow); }
        creator := creator.(pledgesTotal := creator.pledgesTotal + 1);
      }
      var expiry := ExtendExpiry(clock.unixTimestamp, pledge.expiresAt, periods);
      if expiry.Err? { return Err(expiry.error); }
      pledge := pledge.(expiresAt := expiry.value);
      if pledge.periodsTotal + periods > U32_MAX { return Err(ArithmeticOverflow); }
      pledge := pledge.(periodsTotal := pledge.periodsTotal + periods);
      if pledge.contributions == U32_MAX { return Err(ArithmeticOverflow); }
      pledge := pledge.(contributions := pledge.contributions + 1);
      pledge := pledge.(showPublicly := showPublicly);
      pledge := pledge.(lastSlot := clock.slot);
      creators := creators[wallet := creator];
      pledges := pledges[key := pledge];
      r := Ok(Pledged(creator.wallet, supporter, periods, pledge.startedAt, pledge.expiresAt,
                      pledge.periodsTotal, pledge.contributions, showPublicly, clock.slot));
    }

    method VisibilityHandler(clock: Clock, supporter: Address, creator: Address, showPublicly: bool)
      returns (r: Result<ProgramEvent, ProgramError>)
      modifies this
      ensures Did(old(State()), Show(old(State()), clock, supporter, creator, showPublicly), r)
    {
      var key := PledgeKey(creator, supporter);
      if key !in pledges { return Err(AccountMissing); }
      var pledge := pledges[key];
      pledge := pledge.(showPublicly := showPublicly);
      pledges := pledges[key := pledge];
      r := Ok(VisibilityChanged(pledge.creator, pledge.supporter, showPublicly, clock.slot));
    }
  }
}
