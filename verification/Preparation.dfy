/** Preparing an account for a confidential contribution: the plan that moves public and pending
    funds into the available balance, and what the token program does when the plan is carried out. */
module Preparation {
  import opened Common
  import Group
  import Decrypt

  /** A token account with its confidential extension. The pending balance is the two sums behind its
      two ciphertexts; `decryptable` is what the owner's AES key reads, `None` if it reads nothing. */
  datatype Extension = Extension(
    approved: bool, key: Address, available: nat, pendingLow: nat, pendingHigh: nat, credits: nat,
    decryptable: Option<int>)

  datatype Account = Account(publicBalance: nat, extension: Option<Extension>)

  // What the mint and the token program allow.
  datatype Token = Token(autoApprove: bool, maxDeposit: nat, maxCredits: nat)

  datatype Step = Configure | Deposit(amount: nat) | Apply(expectedCredits: nat, decryptable: int)

  datatype Refusal =
    | ForeignKey | NotApproved | BalancesUnreadable | DepositExceedsPublic | InsufficientFunds(missing: int)

  datatype Preparation = Preparation(steps: seq<Step>, deposit: int)

  function Pending(e: Extension): nat { e.pendingLow + e.pendingHigh * Decrypt.SCALE }

  // Both logarithms have to be found; the reader throws otherwise.
  function DecryptBalances(e: Extension): Option<(int, nat)> {
    if e.decryptable.None? || e.pendingLow >= Group.LOG_BOUND || e.pendingHigh >= Group.LOG_BOUND then None
    else Some((e.decryptable.value, Pending(e)))
  }

  // What the planner starts from.
  datatype Start = Start(available: int, pending: nat, credits: nat, publicBalance: nat, steps: seq<Step>)

  function Opening(account: Option<Account>, ours: Address): Result<Start, Refusal> {
    match account
    case None => Ok(Start(0, 0, 0, 0, [Configure]))
    case Some(a) =>
      match a.extension
      case None => Ok(Start(0, 0, 0, a.publicBalance, [Configure]))
      case Some(e) =>
        if e.key != ours then Err(ForeignKey)
        else if !e.approved then Err(NotApproved)
        else match DecryptBalances(e)
          case None => Err(BalancesUnreadable)
          case Some((available, pending)) => Ok(Start(available, pending, e.credits, a.publicBalance, []))
  }

  // The steps after an account is configured.
  function Tail(deposit: int, pending: nat, credits: nat, available: int): seq<Step> {
    (if deposit > 0 then [Deposit(deposit)] else [])
    + (if pending + deposit > 0
       then [Apply(credits + if deposit > 0 then 1 else 0, available + pending + deposit)] else [])
  }

  function Finish(start: Start, units: int, deposit: int): Result<Preparation, Refusal> {
    var shortfall := units - start.available - start.pending;
    if deposit > start.publicBalance then Err(DepositExceedsPublic)
    else if deposit < shortfall then Err(InsufficientFunds(shortfall - deposit))
    else Ok(Preparation(start.steps + Tail(deposit, start.pending, start.credits, start.available), deposit))
  }

  function Plan(account: Option<Account>, ours: Address, units: int, deposit: Option<int>)
    : Result<Preparation, Refusal>
  {
    match Opening(account, ours)
    case Err(reason) => Err(reason)
    case Ok(start) => Finish(start, units, if deposit.Some? then deposit.value else start.publicBalance)
  }

  /** The planner as the program writes it. */
  method PlanPreparation(account: Option<Account>, ours: Address, units: int, deposit: Option<int>)
    returns (r: Result<Preparation, Refusal>)
    ensures r == Plan(account, ours, units, deposit)
  {
    var steps: seq<Step> := [];
    var available: int, pending: nat, credits: nat, publicBalance: nat := 0, 0, 0, 0;
    if account.Some? && account.value.extension.Some? {
      var e := account.value.extension.value;
      if e.key != ours {
        return Err(ForeignKey);
      }
      if !e.approved {
        return Err(NotApproved);
      }
      var balances := DecryptBalances(e);
      if balances.None? {
        return Err(BalancesUnreadable);
      }
      available, pending := balances.value.0, balances.value.1;
      credits, publicBalance := e.credits, account.value.publicBalance;
    } else {
      if account.Some? {
        publicBalance := account.value.publicBalance;
      }
      steps := steps + [Configure];
    }
    var shortfall := units - available - pending;
    var taken := if deposit.Some? then deposit.value else publicBalance;
    if taken > publicBalance {
      return Err(DepositExceedsPublic);
    }
    if taken < shortfall {
      return Err(InsufficientFunds(shortfall - taken));
    }
    if taken > 0 {
      steps := steps + [Deposit(taken)];
    }
    if pending + taken > 0 {
      steps := steps + [Apply(credits + if taken > 0 then 1 else 0, available + pending + taken)];
    }
    ghost var configure := if account.None? || account.value.extension.None? then [Configure] else [];
    assert steps == configure + Tail(taken, pending, credits, available);
    return Ok(Preparation(steps, taken));
  }

  // The token program, step by step; `None` is a failed instruction.
  function Execute(token: Token, ours: Address, account: Option<Account>, step: Step): Option<Account> {
    match step
    case Configure =>
      var publicBalance := if account.Some? then account.value.publicBalance else 0;
      if account.Some? && account.value.extension.Some? then None
      else Some(Account(publicBalance, Some(Extension(token.autoApprove, ours, 0, 0, 0, 0, Some(0)))))
    case Deposit(amount) =>
      if account.None? || account.value.extension.None? then None
      else
        var e := account.value.extension.value;
        if !e.approved || amount > account.value.publicBalance || amount > token.maxDeposit
           || e.credits + 1 > token.maxCredits then None
        else
          Some(Account(account.value.publicBalance - amount,
                       Some(e.(pendingLow := e.pendingLow + amount % Decrypt.SCALE,
                               pendingHigh := e.pendingHigh + amount / Decrypt.SCALE,
                               credits := e.credits + 1))))
    case Apply(_, decryptable) =>
      if account.None? || account.value.extension.None? then None
      else
        var e := account.value.extension.value;
        if !e.approved then None
        else
          Some(account.value.(extension := Some(
            e.(available := e.available + Pending(e), pendingLow := 0, pendingHigh := 0, credits := 0,
               decryptable := Some(decryptable)))))
  }

  function ExecuteAll(token: Token, ours: Address, account: Option<Account>, steps: seq<Step>): Option<Account>
    decreases |steps|
  {
    if steps == [] then account
    else match Execute(token, ours, account, steps[0])
      case None => None
      case Some(next) => ExecuteAll(token, ours, Some(next), steps[1..])
  }

  // All the money of an account, wherever it lies.
  function Worth(account: Option<Account>): nat {
    match account
    case None => 0
    case Some(a) => a.publicBalance + if a.extension.Some? then a.extension.value.available + Pending(a.extension.value) else 0
  }

  function Available(account: Option<Account>): nat {
    if account.Some? && account.value.extension.Some? then account.value.extension.value.available else 0
  }

  function Unapplied(account: Option<Account>): nat {
    if account.Some? && account.value.extension.Some? then Pending(account.value.extension.value) else 0
  }

  function Credits(account: Option<Account>): nat {
    if account.Some? && account.value.extension.Some? then account.value.extension.value.credits else 0
  }

  function PublicOf(account: Option<Account>): nat {
    if account.Some? then account.value.publicBalance else 0
  }

  // What the caller wants moved: the deposit asked for, or else the whole public balance.
  function Wanted(account: Option<Account>, deposit: Option<int>): int {
    match deposit
    case Some(d) => d
    case None => PublicOf(account)
  }

  // What the owner's own record says is available.
  function Recorded(account: Option<Account>): int {
    if account.Some? && account.value.extension.Some? && account.value.extension.value.decryptable.Some?
    then account.value.extension.value.decryptable.value else 0
  }

  // The owner's own record of the available balance is right.
  predicate InSync(account: Option<Account>) {
    account.Some? && account.value.extension.Some? ==>
      account.value.extension.value.decryptable == Some(account.value.extension.value.available)
  }

  // Every `Apply` of a run announces the credits that are really there when it runs.
  ghost predicate CreditsExpected(token: Token, ours: Address, account: Option<Account>, steps: seq<Step>)
    decreases |steps|
  {
    steps == [] ||
    (match Execute(token, ours, account, steps[0])
     case None => true
     case Some(next) =>
       && (steps[0].Apply? ==> steps[0].expectedCredits == Credits(account))
       && CreditsExpected(token, ours, Some(next), steps[1..]))
  }

  lemma DepositKeeps(token: Token, ours: Address, a: Account, amount: nat)
    requires a.extension.Some? && a.extension.value.approved && amount <= a.publicBalance
    requires amount <= token.maxDeposit && a.extension.value.credits + 1 <= token.maxCredits
    ensures var r := Execute(token, ours, Some(a), Deposit(amount));
      && r.Some? && r.value.extension.Some? && r.value.extension.value.approved
      && r.value.publicBalance == a.publicBalance - amount && Worth(r) == Worth(Some(a)) && Available(r) == Available(Some(a))
      && Unapplied(r) == Unapplied(Some(a)) + amount && Credits(r) == Credits(Some(a)) + 1
      && r.value.extension.value.decryptable == a.extension.value.decryptable
  {
    assert amount == amount % Decrypt.SCALE + amount / Decrypt.SCALE * Decrypt.SCALE;
  }

  lemma ApplyKeeps(token: Token, ours: Address, a: Account, expected: nat, decryptable: int)
    requires a.extension.Some? && a.extension.value.approved
    ensures var r := Execute(token, ours, Some(a), Apply(expected, decryptable));
      && r.Some? && r.value.extension.Some? && Worth(r) == Worth(Some(a)) && r.value.publicBalance == a.publicBalance
      && Available(r) == Available(Some(a)) + Unapplied(Some(a)) && Unapplied(r) == 0
      && r.value.extension.value.decryptable == Some(decryptable)
  {
  }

  // A plan that moved `deposit` went through: the public balance fell by it, and it was applied with
  // everything that was pending, if that was anything at all.
  ghost predicate Moved(account: Option<Account>, deposit: int, r: Option<Account>) {
    && r.Some? && Worth(r) == Worth(account)
    && PublicOf(r) == PublicOf(account) - Max(0, deposit)
    && Available(r) == Available(account)
                       + if Unapplied(account) + deposit > 0 then Unapplied(account) + Max(0, deposit) else 0
  }

  ghost predicate Prepared(account: Option<Account>, units: int, deposit: int, r: Option<Account>) {
    && Available(r) >= units
    && (InSync(r) <==> deposit >= 0 || Unapplied(account) + deposit <= 0)
  }

  lemma OneStep(token: Token, ours: Address, a: Account, step: Step)
    ensures ExecuteAll(token, ours, Some(a), [step]) == Execute(token, ours, Some(a), step)
    ensures CreditsExpected(token, ours, Some(a), [step])
            <==> (Execute(token, ours, Some(a), step).Some? && step.Apply? ==> step.expectedCredits == Credits(Some(a)))
  {
    assert [step][1..] == [];
  }

  // What the token program asks before it takes a deposit.
  predicate Takes(token: Token, a: Account, deposit: int)
    requires a.extension.Some?
  {
    deposit > 0 ==>
      a.extension.value.approved && deposit <= token.maxDeposit && a.extension.value.credits + 1 <= token.maxCredits
  }

  // What carrying out the tail of a plan comes to.
  ghost predicate TailDone(token: Token, ours: Address, a: Account, deposit: int, available: int, r: Option<Account>)
    requires a.extension.Some?
  {
    && (r.Some? <==> Takes(token, a, deposit))
    && (r.Some? ==>
          && r.value.extension.Some? && Worth(r) == Worth(Some(a))
          && r.value.publicBalance == a.publicBalance - Max(0, deposit)
          && (if Unapplied(Some(a)) + deposit > 0 then
                && Available(r) == Available(Some(a)) + Unapplied(Some(a)) + Max(0, deposit)
                && r.value.extension.value.decryptable == Some(available + Unapplied(Some(a)) + deposit)
              else r == Some(a)))
  }

  lemma TailRuns(token: Token, ours: Address, a: Account, deposit: int, available: int)
    requires a.extension.Some? && deposit <= a.publicBalance
    requires Unapplied(Some(a)) > 0 ==> a.extension.value.approved
    ensures var steps := Tail(deposit, Unapplied(Some(a)), Credits(Some(a)), available);
            && TailDone(token, ours, a, deposit, available, ExecuteAll(token, ours, Some(a), steps))
            && CreditsExpected(token, ours, Some(a), steps)
  {
    var steps := Tail(deposit, Unapplied(Some(a)), Credits(Some(a)), available);
    if deposit > 0 {
      var last := Apply(Credits(Some(a)) + 1, available + Unapplied(Some(a)) + deposit);
      assert steps == [Deposit(deposit), last] && steps[1..] == [last];
      if Takes(token, a, deposit) {
        DepositKeeps(token, ours, a, deposit);
        var b := Execute(token, ours, Some(a), Deposit(deposit)).value;
        ApplyKeeps(token, ours, b, last.expectedCredits, last.decryptable);
        OneStep(token, ours, b, last);
      }
    } else if Unapplied(Some(a)) + deposit > 0 {
      var last := Apply(Credits(Some(a)), available + Unapplied(Some(a)) + deposit);
      assert steps == [last];
      ApplyKeeps(token, ours, a, last.expectedCredits, last.decryptable);
      OneStep(token, ours, a, last);
    } else {
      assert steps == [];
    }
  }

  // An account the planner can work from, as the chain holds it once it is configured.
  function Configured(token: Token, ours: Address, account: Option<Account>): Account {
    if account.Some? && account.value.extension.Some? then account.value
    else
      Account(if account.Some? then account.value.publicBalance else 0,
              Some(Extension(token.autoApprove, ours, 0, 0, 0, 0, Some(0))))
  }

  // What of a plan is left once the account is configured.
  lemma PlanIsTail(token: Token, ours: Address, account: Option<Account>, units: int, deposit: Option<int>, start: Start)
    requires Plan(account, ours, units, deposit).Ok? && Opening(account, ours) == Ok(start)
    ensures var plan, a := Plan(account, ours, units, deposit).value, Configured(token, ours, account);
            var tail := Tail(plan.deposit, Unapplied(Some(a)), Credits(Some(a)), start.available);
            && ExecuteAll(token, ours, account, plan.steps) == ExecuteAll(token, ours, Some(a), tail)
            && (CreditsExpected(token, ours, account, plan.steps) <==> CreditsExpected(token, ours, Some(a), tail))
  {
    var plan, a := Plan(account, ours, units, deposit).value, Configured(token, ours, account);
    var tail := Tail(plan.deposit, Unapplied(Some(a)), Credits(Some(a)), start.available);
    if account.None? || account.value.extension.None? {
      assert plan.steps == [Configure] + tail;
      assert plan.steps[1..] == tail;
    } else {
      assert plan.steps == [] + tail == tail;
    }
  }

  /** Carrying out a plan. It goes through exactly when there is nothing to deposit or the token program
      takes the deposit: the account, once configured, is approved, and neither of its limits is
      exceeded. Then no money is created or lost, and the public balance falls by exactly what the
      caller wanted moved. The credits announced are the credits there are. If the owner's record was
      right before, the requested units end up available, and the record is right again exactly when
      the caller did not ask for a negative deposit that an `apply` step books. */
  lemma PlanWorks(token: Token, ours: Address, account: Option<Account>, units: int, deposit: Option<int>)
    requires Plan(account, ours, units, deposit).Ok?
    ensures var plan, wanted := Plan(account, ours, units, deposit).value, Wanted(account, deposit);
            var r := ExecuteAll(token, ours, account, plan.steps);
            && plan.deposit == wanted
            && (r.Some? <==> Takes(token, Configured(token, ours, account), wanted))
            && (r.Some? ==> Moved(account, wanted, r))
            && (r.Some? && InSync(account) ==> Prepared(account, units, wanted, r))
            && CreditsExpected(token, ours, account, plan.steps)
  {
    hide ExecuteAll, CreditsExpected, Tail;
    var start := Opening(account, ours).value;
    var a := Configured(token, ours, account);
    PlanIsTail(token, ours, account, units, deposit, start);
    TailRuns(token, ours, a, Plan(account, ours, units, deposit).value.deposit, start.available);
  }

  /** Two plans the token program stops: the default deposit of a balance above its maximum, and any
      deposit into a new account of a mint that does not approve accounts by itself. */
  lemma PlanStopped(ours: Address)
    ensures var rich := Some(Account(101, None));
            var plan := Plan(rich, ours, 1, None);
            plan.Ok? && ExecuteAll(Token(true, 100, 65536), ours, rich, plan.value.steps).None?
    ensures var plain := Some(Account(5, None));
            var plan := Plan(plain, ours, 1, None);
            plan.Ok? && ExecuteAll(Token(false, 100, 65536), ours, plain, plan.value.steps).None?
  {
    PlanWorks(Token(true, 100, 65536), ours, Some(Account(101, None)), 1, None);
    PlanWorks(Token(false, 100, 65536), ours, Some(Account(5, None)), 1, None);
  }

  /** A negative deposit that is booked: 15 units are available and the owner's record says 12. */
  lemma NegativeIsBooked(ours: Address)
    ensures var before := Some(Account(0, Some(Extension(true, ours, 10, 5, 0, 1, Some(10)))));
            var plan := Plan(before, ours, 0, Some(-3));
            && InSync(before) && plan.Ok?
            && var after := ExecuteAll(Token(true, 100, 65536), ours, before, plan.value.steps);
               after.Some? && Available(after) == 15 && after.value.extension.value.decryptable == Some(12) && !InSync(after)
  {
    var before := Account(0, Some(Extension(true, ours, 10, 5, 0, 1, Some(10))));
    var plan := Plan(Some(before), ours, 0, Some(-3)).value;
    assert plan.steps == [Apply(1, 12)];
    OneStep(Token(true, 100, 65536), ours, before, Apply(1, 12));
  }

  // Why the planner does not even start: the account belongs to another key, waits for approval, or
  // holds a balance that cannot be read.
  ghost predicate Unusable(account: Option<Account>, ours: Address, reason: Refusal) {
    && account.Some? && account.value.extension.Some?
    && var e := account.value.extension.value;
    if e.key != ours then reason == ForeignKey
    else if !e.approved then reason == NotApproved
    else
      && (e.decryptable.None? || e.pendingLow >= 0x1_0000_0000 || e.pendingHigh >= 0x1_0000_0000)
      && reason == BalancesUnreadable
  }

  /** Every refusal of the planner. An account it can use is refused exactly when the caller wants more
      moved than the public balance, or less than what the units lack of the recorded and the pending
      balance; the second refusal names the difference. */
  lemma Refusals(account: Option<Account>, ours: Address, units: int, deposit: Option<int>, reason: Refusal)
    ensures var wanted, lacking := Wanted(account, deposit), units - Recorded(account) - Unapplied(account);
            Plan(account, ours, units, deposit) == Err(reason) <==>
              if exists r :: Unusable(account, ours, r) then Unusable(account, ours, reason)
              else if wanted > PublicOf(account) then reason == DepositExceedsPublic
              else wanted < lacking && reason == InsufficientFunds(lacking - wanted)
  {
    var opening := Opening(account, ours);
    if opening.Err? {
      assert Unusable(account, ours, opening.error);
    }
  }

  /** With the default deposit the planner gives up for lack of funds exactly when the units asked for
      exceed all three balances together, and never for any other reason of money. */
  lemma RefusesExactly(account: Option<Account>, ours: Address, units: int)
    requires InSync(account) && Opening(account, ours).Ok?
    ensures Plan(account, ours, units, None).Err? <==> units > Worth(account)
    ensures Plan(account, ours, units, None).Err? ==>
              Plan(account, ours, units, None) == Err(InsufficientFunds(units - Worth(account)))
  {
  }
}
