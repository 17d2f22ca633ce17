/** Terms of support: the program's expiry rule over i64, and the same rule in the browser. */
module Periods {
  import opened Common

  const PERIOD_SECONDS: int := 30 * 24 * 60 * 60
  const GRACE_SECONDS: int := 3 * 24 * 60 * 60
  const MAX_PERIODS: int := 12

  datatype ProgramError =
    | AccountInUse | AccountMissing | ForeignSysvar | ArithmeticOverflow
    | InvalidHandle | NameTooLong | DescriptionTooLong
    | TransferNotFound | WrongMint | WrongDestination | WrongSource | WrongAuthority
    | InvalidPeriods

  // The release profile keeps overflow checks, so an overflowing addition aborts the transaction.
  function ExtendExpiry(now: i64, expiresAt: i64, periods: u8): Result<i64, ProgramError> {
    if !(1 <= periods <= MAX_PERIODS) then Err(InvalidPeriods)
    else
      var sum := Max(now, expiresAt) + periods * PERIOD_SECONDS;
      if sum > I64_MAX then Err(ArithmeticOverflow) else Ok(sum)
  }

  // `isActive` of the shared package and `ccs_is_active` of the index, in seconds.
  predicate IsActive(now: int, expiresAt: int) {
    expiresAt + GRACE_SECONDS > now
  }

  function DaysLeft(now: int, expiresAt: int): int {
    Max(0, CeilDiv(expiresAt - now, 24 * 60 * 60))
  }

  datatype ExpiryPlan =
    | First(until: int)
    | Renewal(from: int, until: int)
    | Lapsed(endedAt: int, until: int)

  // `expiryPlan` of the support screen; `None` is the RangeError of `extendExpiry`.
  function PlanExpiry(now: int, current: Option<int>, periods: int): Option<ExpiryPlan> {
    if !(1 <= periods <= MAX_PERIODS) then None
    else match current
      case None => Some(First(Max(now, 0) + periods * PERIOD_SECONDS))
      case Some(e) =>
        var until := Max(now, e) + periods * PERIOD_SECONDS;
        Some(if e > now then Renewal(e, until) else Lapsed(e, until))
  }

  /** What the browser announces against what the program grants at its own clock: a renewal is
      exact for every pair of clocks before the expiry, a restarted term is off by the clock skew
      and by nothing else. */
  lemma PlanAgainstProgram(browser: int, chain: i64, e: i64, periods: u8)
    requires ExtendExpiry(chain, e, periods).Ok?
    ensures PlanExpiry(browser, Some(e), periods).Some?
    ensures var plan := PlanExpiry(browser, Some(e), periods).value;
            var granted := ExtendExpiry(chain, e, periods).value;
            && (plan.Renewal? <==> browser < e) && (plan.Lapsed? <==> browser >= e)
            && (plan.Renewal? ==> plan.from == e) && (plan.Lapsed? ==> plan.endedAt == e)
            && (chain <= e && plan.Renewal? ==> plan.until == granted)
            && (chain > e ==> (plan.until == granted <==> browser == chain))
            && (chain > e && plan.Lapsed? ==> plan.until - granted == browser - chain)
  {
  }

  /** Without a pledge yet the browser announces a first term, off by the clock skew; and whatever the
      pledge, it announces nothing exactly for a number of periods the program refuses. */
  lemma FirstPlanAgainstProgram(browser: int, chain: i64, current: Option<int>, periods: u8)
    ensures PlanExpiry(browser, current, periods).None? <==> periods < 1 || periods > 12
    ensures ExtendExpiry(chain, 0, periods) == Err(InvalidPeriods) <==> periods < 1 || periods > 12
    ensures ExtendExpiry(chain, 0, periods).Ok? ==>
              var plan := PlanExpiry(browser, None, periods).value;
              plan.First? && plan.until - ExtendExpiry(chain, 0, periods).value == Max(browser, 0) - Max(chain, 0)
  {
  }

  /** `daysLeft` is the least number of whole days that reaches the expiry, and zero from it on. */
  lemma DaysLeftIsLeast(now: int, expiresAt: int)
    ensures var d := DaysLeft(now, expiresAt);
            && d >= 0
            && now + d * 86400 >= expiresAt
            && (d > 0 ==> now + (d - 1) * 86400 < expiresAt)
            && (d == 0 <==> expiresAt <= now)
  {
    var gap := expiresAt - now;
    assert -gap == 86400 * ((-gap) / 86400) + (-gap) % 86400;
  }
}
