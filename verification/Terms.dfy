/** Time algebra: what a sequence of payments makes of a term, and that every pledge account of
    every history is exactly the term of the payments its events report. */
module Terms {
  import opened Common
  import opened Periods
  import opened Introspect
  import opened Program
  import opened Runs
  import opened Ledger

  datatype Payment = Payment(at: int, periods: int)

  function Expiry(ps: seq<Payment>): int {
    if ps == [] then 0
    else Max(ps[|ps| - 1].at, Expiry(ps[..|ps| - 1])) + ps[|ps| - 1].periods * PERIOD_SECONDS
  }

  function PeriodsPaid(ps: seq<Payment>): int {
    if ps == [] then 0 else PeriodsPaid(ps[..|ps| - 1]) + ps[|ps| - 1].periods
  }

  // The time without paid support between one expiry and the payment that restarts the term.
  function Lapses(ps: seq<Payment>): int {
    if |ps| < 2 then 0
    else Lapses(ps[..|ps| - 1]) + Max(0, ps[|ps| - 1].at - Expiry(ps[..|ps| - 1]))
  }

  // Clocks never run backwards, and every payment is for one to twelve periods.
  predicate Ordered(ps: seq<Payment>) {
    && (forall i :: 0 <= i < |ps| ==> 0 <= ps[i].at && 1 <= ps[i].periods <= MAX_PERIODS)
    && (forall i, j :: 0 <= i < j < |ps| ==> ps[i].at <= ps[j].at)
  }

  /** Nothing paid is lost and nothing is granted: the expiry is the start, plus thirty days for
      every period ever paid, plus the lapses. */
  lemma {:induction false} ClosedForm(ps: seq<Payment>)
    requires Ordered(ps) && ps != []
    ensures Expiry(ps) == ps[0].at + PeriodsPaid(ps) * 2_592_000 + Lapses(ps)
    decreases |ps|
  {
    if |ps| > 1 {
      ClosedForm(ps[..|ps| - 1]);
    }
  }

  // One more payment of `periods` at `at`, after a term that began its last payment at `before`.
  lemma OneMore(before: int, expiry: int, paid: int, at: int, periods: int)
    requires before <= at && 1 <= periods && 0 <= paid
    requires before + PERIOD_SECONDS <= expiry <= before + paid * PERIOD_SECONDS
    ensures at + PERIOD_SECONDS <= Max(at, expiry) + periods * PERIOD_SECONDS <= at + (paid + periods) * PERIOD_SECONDS
  {
  }

  /** The term always reaches past its last payment, by no more than everything ever paid. */
  lemma {:induction false} ExpiryBounds(ps: seq<Payment>)
    requires Ordered(ps) && ps != []
    ensures ps[|ps| - 1].at + PERIOD_SECONDS <= Expiry(ps) <= ps[|ps| - 1].at + PeriodsPaid(ps) * PERIOD_SECONDS
    ensures |ps| <= PeriodsPaid(ps) <= MAX_PERIODS * |ps|
    decreases |ps|
  {
    if |ps| > 1 {
      var init, last := ps[..|ps| - 1], ps[|ps| - 1];
      ExpiryBounds(init);
      OneMore(init[|init| - 1].at, Expiry(init), PeriodsPaid(init), last.at, last.periods);
    }
  }

  // The payments made by an instant, and whether they keep the supporter active at it.
  function Made(ps: seq<Payment>, x: int): seq<Payment> {
    if ps == [] || ps[|ps| - 1].at <= x then ps else Made(ps[..|ps| - 1], x)
  }

  predicate ActiveAt(ps: seq<Payment>, x: int) {
    Made(ps, x) != [] && IsActive(x, Expiry(Made(ps, x)))
  }

  ghost predicate AlwaysActive(ps: seq<Payment>)
    requires ps != []
  {
    forall x :: ps[0].at <= x < Expiry(ps) + 259_200 ==> ActiveAt(ps, x)
  }

  ghost predicate RenewedInTime(ps: seq<Payment>) {
    forall i :: 1 <= i < |ps| ==> ps[i].at <= Expiry(ps[..i]) + 259_200
  }

  /** Support is unbroken from the first payment to the end of the last grace exactly when every
      renewal came no later than the grace of the term before it. */
  lemma {:induction false} UnbrokenIffRenewed(ps: seq<Payment>)
    requires Ordered(ps) && ps != []
    ensures AlwaysActive(ps) <==> RenewedInTime(ps)
    decreases |ps|
  {
    ExpiryBounds(ps);
    if |ps| == 1 {
      assert forall x :: ps[0].at <= x ==> Made(ps, x) == ps;
    } else {
      var init, last := ps[..|ps| - 1], ps[|ps| - 1];
      UnbrokenIffRenewed(init);
      ExpiryBounds(init);
      RenewedLast(ps);
      if AlwaysActive(ps) {
        ActiveBefore(ps);
      }
      if RenewedInTime(ps) {
        forall x | ps[0].at <= x < Expiry(ps) + GRACE_SECONDS ensures ActiveAt(ps, x) {
          if x < last.at {
            assert ActiveAt(init, x);
          }
        }
      }
    }
  }

  lemma RenewedLast(ps: seq<Payment>)
    requires |ps| > 1
    ensures var init := ps[..|ps| - 1];
            RenewedInTime(ps) <==> RenewedInTime(init) && ps[|ps| - 1].at <= Expiry(init) + GRACE_SECONDS
  {
    var init := ps[..|ps| - 1];
    assert forall i :: 1 <= i < |init| ==> init[..i] == ps[..i] && init[i] == ps[i];
  }

  lemma ActiveBefore(ps: seq<Payment>)
    requires Ordered(ps) && |ps| > 1 && AlwaysActive(ps)
    ensures AlwaysActive(ps[..|ps| - 1])
    ensures ps[|ps| - 1].at <= Expiry(ps[..|ps| - 1]) + GRACE_SECONDS
  {
    var init, last := ps[..|ps| - 1], ps[|ps| - 1];
    ExpiryBounds(init);
    ExpiryBounds(ps);
    forall x | init[0].at <= x < Expiry(init) + GRACE_SECONDS ensures ActiveAt(init, x) {
      if x < last.at {
        assert x < Expiry(ps) + GRACE_SECONDS;
        assert ActiveAt(ps, x);
      } else {
        assert init[|init| - 1].at <= x;
      }
    }
    if Expiry(init) + GRACE_SECONDS < last.at {
      GapIsInactive(ps);
    }
  }

  // When a renewal comes after the grace, support has lapsed at the instant the grace ends.
  lemma GapIsInactive(ps: seq<Payment>)
    requires Ordered(ps) && |ps| > 1
    requires Expiry(ps[..|ps| - 1]) + GRACE_SECONDS < ps[|ps| - 1].at
    ensures var end := Expiry(ps[..|ps| - 1]) + GRACE_SECONDS;
            ps[0].at <= end < Expiry(ps) + GRACE_SECONDS && !ActiveAt(ps, end)
  {
    var init := ps[..|ps| - 1];
    ExpiryBounds(init);
    ExpiryBounds(ps);
    assert Made(ps, Expiry(init) + GRACE_SECONDS) == init;
  }

  // The payments on a pledge that events report, at the clock of their transaction.
  function PaymentsIn(k: PledgeKey, at: int, events: seq<ProgramEvent>): seq<Payment> {
    if events == [] then []
    else (if On(events[0], k) then [Payment(at, events[0].periods)] else []) + PaymentsIn(k, at, events[1..])
  }

  function PaymentsOf(d: Deployment, k: PledgeKey, history: seq<Tx>): seq<Payment> {
    if history == [] then [] else
      var init, tx := history[..|history| - 1], history[|history| - 1];
      PaymentsOf(d, k, init) + PaymentsIn(k, tx.clock.unixTimestamp, EventsOf(d, ChainAfter(d, init), tx))
  }

  // A pledge account stands for a sequence of payments.
  ghost predicate Stands(c: Chain, k: PledgeKey, ps: seq<Payment>) {
    && (k in c.pledges <==> ps != [])
    && PledgeAt(c, k).expiresAt == Expiry(ps)
    && PledgeAt(c, k).periodsTotal == PeriodsPaid(ps)
    && PledgeAt(c, k).contributions == |ps|
    && (ps != [] ==> PledgeAt(c, k).startedAt == ps[0].at)
  }

  lemma ContributedStands(c: Chain, after: Chain, clock: Clock, key: PledgeKey, periods: u8, showPublicly: bool,
                          k: PledgeKey, ps: seq<Payment>)
    requires Contributed(c, after, clock, key, periods, showPublicly) && Stands(c, k, ps)
    ensures Stands(after, k, if k == key then ps + [Payment(clock.unixTimestamp, periods)] else ps)
  {
    if k == key {
      assert (ps + [Payment(clock.unixTimestamp, periods)])[..|ps|] == ps;
    }
  }

  lemma CallStands(d: Deployment, c: Chain, clock: Clock, sysvar: Sysvar, call: Call, k: PledgeKey, ps: seq<Payment>)
    requires Inv(c) && Run(d, c, clock, sysvar, call).Ok? && Stands(c, k, ps)
    ensures var step := Run(d, c, clock, sysvar, call).value;
            Stands(step.0, k, if On(step.1, k) then ps + [Payment(clock.unixTimestamp, step.1.periods)] else ps)
  {
    hide Inv;
    var step := Run(d, c, clock, sysvar, call).value;
    match call {
      case RegisterCreator(_, _, _, _) => assert step.0.pledges == c.pledges;
      case UpdateCreator(_, _, _, _) => assert step.0.pledges == c.pledges;
      case MakePledge(supporter, creator, periods, showPublicly) =>
        ContributeEffect(d, c, clock, sysvar, supporter, creator, periods, showPublicly);
        ContributedStands(c, step.0, clock, PledgeKey(creator, supporter), periods, showPublicly, k, ps);
      case SetVisibility(_, _, _) =>
    }
  }

  lemma {:induction false} CallsStand(d: Deployment, c: Chain, clock: Clock, list: seq<Instruction>, calls: seq<Call>,
                                      k: PledgeKey, ps: seq<Payment>)
    requires Inv(c) && RunCalls(d, c, clock, list, calls).Ok? && Stands(c, k, ps)
    ensures var done := RunCalls(d, c, clock, list, calls).value;
            Stands(done.0, k, ps + PaymentsIn(k, clock.unixTimestamp, done.1))
    decreases |calls|
  {
    if calls == [] {
      assert ps + [] == ps;
    } else {
      var first := Run(d, c, clock, Instructions(list), calls[0]).value;
      var paid := if On(first.1, k) then [Payment(clock.unixTimestamp, first.1.periods)] else [];
      CallStands(d, c, clock, Instructions(list), calls[0], k, ps);
      assert ps + [] == ps;
      RunKeeps(d, c, clock, Instructions(list), calls[0]);
      CallsStand(d, first.0, clock, list, calls[1..], k, ps + paid);
      PaymentsFirst(k, clock.unixTimestamp, first.1, RunCalls(d, first.0, clock, list, calls[1..]).value.1, ps);
    }
  }

  lemma PaymentsFirst(k: PledgeKey, at: int, first: ProgramEvent, rest: seq<ProgramEvent>, ps: seq<Payment>)
    ensures ps + PaymentsIn(k, at, [first] + rest)
            == ps + (if On(first, k) then [Payment(at, first.periods)] else []) + PaymentsIn(k, at, rest)
  {
    assert ([first] + rest)[1..] == rest;
  }

  /** Every pledge account of every reachable state is the term of the payments in the history's
      events: start, expiry, periods and count alike. */
  lemma {:induction false} PledgeIsTerm(d: Deployment, k: PledgeKey, history: seq<Tx>)
    ensures Stands(ChainAfter(d, history), k, PaymentsOf(d, k, history))
    decreases |history|
  {
    if history != [] {
      var n := |history| - 1;
      var c, tx := ChainAfter(d, history[..n]), history[n];
      PledgeIsTerm(d, k, history[..n]);
      Reachable(d, history[..n]);
      if Fails(d, c, tx) {
        assert PaymentsOf(d, k, history[..n]) + [] == PaymentsOf(d, k, history[..n]);
      } else {
        CallsStand(d, c, tx.clock, tx.instructions, tx.calls, k, PaymentsOf(d, k, history[..n]));
      }
    }
  }

  // The chain clock is never negative and never runs backwards.
  predicate Clocked(history: seq<Tx>) {
    && (forall i :: 0 <= i < |history| ==> 0 <= history[i].clock.unixTimestamp)
    && (forall i, j :: 0 <= i < j < |history| ==> history[i].clock.unixTimestamp <= history[j].clock.unixTimestamp)
  }

  lemma {:induction false} CallPeriods(d: Deployment, c: Chain, clock: Clock, list: seq<Instruction>, calls: seq<Call>, k: PledgeKey)
    requires Inv(c) && RunCalls(d, c, clock, list, calls).Ok?
    ensures forall p :: p in PaymentsIn(k, clock.unixTimestamp, RunCalls(d, c, clock, list, calls).value.1) ==>
              p.at == clock.unixTimestamp && 1 <= p.periods <= MAX_PERIODS
    decreases |calls|
  {
    if calls != [] {
      var first := Run(d, c, clock, Instructions(list), calls[0]).value;
      RunKeeps(d, c, clock, Instructions(list), calls[0]);
      CallPeriods(d, first.0, clock, list, calls[1..], k);
      var rest := RunCalls(d, first.0, clock, list, calls[1..]).value;
      assert ([first.1] + rest.1)[1..] == rest.1;
      EventPeriods(d, c, clock, Instructions(list), calls[0]);
    }
  }

  lemma EventPeriods(d: Deployment, c: Chain, clock: Clock, sysvar: Sysvar, call: Call)
    requires Run(d, c, clock, sysvar, call).Ok?
    ensures var e := Run(d, c, clock, sysvar, call).value.1; e.Pledged? ==> 1 <= e.periods <= MAX_PERIODS
  {
  }

  lemma {:induction false} PaymentsOrdered(d: Deployment, k: PledgeKey, history: seq<Tx>)
    requires Clocked(history)
    ensures Ordered(PaymentsOf(d, k, history))
    ensures forall p :: p in PaymentsOf(d, k, history) ==> history != [] && p.at <= history[|history| - 1].clock.unixTimestamp
    decreases |history|
  {
    if history != [] {
      var n := |history| - 1;
      var c, tx := ChainAfter(d, history[..n]), history[n];
      PaymentsOrdered(d, k, history[..n]);
      Reachable(d, history[..n]);
      var before := PaymentsOf(d, k, history[..n]);
      if !Fails(d, c, tx) {
        CallPeriods(d, c, tx.clock, tx.instructions, tx.calls, k);
      }
      var more := PaymentsIn(k, tx.clock.unixTimestamp, EventsOf(d, c, tx));
      OrderedAppend(before, more, tx.clock.unixTimestamp);
    }
  }

  lemma OrderedAppend(before: seq<Payment>, more: seq<Payment>, at: int)
    requires Ordered(before) && at >= 0
    requires forall p :: p in before ==> p.at <= at
    requires forall p :: p in more ==> p.at == at && 1 <= p.periods <= MAX_PERIODS
    ensures Ordered(before + more)
  {
    var all := before + more;
    forall i | 0 <= i < |all| ensures 0 <= all[i].at <= at && 1 <= all[i].periods <= MAX_PERIODS {
      assert all[i] in before || all[i] in more;
    }
    forall i, j | 0 <= i < j < |all| ensures all[i].at <= all[j].at {
      if j >= |before| {
        assert all[j] in more;
      }
    }
  }

  /** On every reachable account the expiry is start + periods paid + lapses, and one to twelve
      periods were paid per contribution. */
  lemma AccountClosedForm(d: Deployment, k: PledgeKey, history: seq<Tx>)
    requires Clocked(history) && k in ChainAfter(d, history).pledges
    ensures var p := ChainAfter(d, history).pledges[k];
            && p.expiresAt == p.startedAt + p.periodsTotal * 2_592_000 + Lapses(PaymentsOf(d, k, history))
            && p.contributions <= p.periodsTotal <= 12 * p.contributions
            && p.expiresAt <= history[|history| - 1].clock.unixTimestamp + p.periodsTotal * 2_592_000
  {
    var ps := PaymentsOf(d, k, history);
    PledgeIsTerm(d, k, history);
    PaymentsOrdered(d, k, history);
    ClosedForm(ps);
    ExpiryBounds(ps);
    assert ps[|ps| - 1] in ps;
  }

  /** The expiry cannot overflow while the period counter holds, on any chain clock that leaves room
      for 2^32 periods, some 350 million years. */
  lemma ExpiryNeverOverflows(d: Deployment, k: PledgeKey, history: seq<Tx>, now: i64, periods: u8)
    requires Clocked(history) && 1 <= periods <= MAX_PERIODS
    requires 0 <= now <= I64_MAX - U32_MAX * PERIOD_SECONDS
    requires history != [] ==> history[|history| - 1].clock.unixTimestamp <= now
    requires PledgeAt(ChainAfter(d, history), k).periodsTotal + periods <= U32_MAX
    ensures ExtendExpiry(now, PledgeAt(ChainAfter(d, history), k).expiresAt, periods).Ok?
  {
    PledgeIsTerm(d, k, history);
    PaymentsOrdered(d, k, history);
    var ps := PaymentsOf(d, k, history);
    if ps == [] {
      Fits64(now, now, 0, 0, periods);
    } else {
      ExpiryBounds(ps);
      assert ps[|ps| - 1] in ps;
      Fits64(now, ps[|ps| - 1].at, Expiry(ps), PeriodsPaid(ps), periods);
    }
  }

  lemma Fits64(now: int, last: int, expiry: int, paid: int, periods: int)
    requires 0 <= last <= now <= I64_MAX - U32_MAX * PERIOD_SECONDS
    requires expiry <= last + paid * PERIOD_SECONDS && 0 <= paid && 0 <= periods && paid + periods <= U32_MAX
    ensures Max(now, expiry) + periods * PERIOD_SECONDS <= I64_MAX
  {
  }
}
