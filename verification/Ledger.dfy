/** The ledger of contributions: what the rows of the `contributions` table add up to, against the
    counters of the pledge accounts, for every history. */
module Ledger {
  import opened Common
  import opened Periods
  import opened Introspect
  import opened Program
  import opened Runs
  import opened Tables
  import opened Refinement

  // The three accounts kept per pledge: how many contributions, how many periods, how many firsts.
  datatype Measure = Contributions | PaidPeriods | Firsts

  function ChainMeasure(m: Measure, c: Chain, k: PledgeKey): nat {
    match m
    case Contributions => PledgeAt(c, k).contributions
    case PaidPeriods => PledgeAt(c, k).periodsTotal
    case Firsts => if k in c.pledges then 1 else 0
  }

  predicate On(e: ProgramEvent, k: PledgeKey) {
    e.Pledged? && e.creator == k.creator && e.supporter == k.supporter
  }

  function EventWeight(m: Measure, k: PledgeKey, e: ProgramEvent): nat {
    if !On(e, k) then 0
    else match m
      case Contributions => 1
      case PaidPeriods => e.periods
      case Firsts => if e.contributions == 1 then 1 else 0
  }

  function RowWeight(m: Measure, k: PledgeKey, row: ContributionRow): int {
    if PledgeKey(row.creator, row.supporter) != k then 0
    else match m
      case Contributions => 1
      case PaidPeriods => row.periods
      case Firsts => if row.kind == FirstContribution then 1 else 0
  }

  function EventsWeight(m: Measure, k: PledgeKey, events: seq<ProgramEvent>): nat {
    if events == [] then 0 else EventWeight(m, k, events[0]) + EventsWeight(m, k, events[1..])
  }

  // The table keeps one row per signature, so of one transaction only the first pledge is recorded.
  function FirstRecorded(m: Measure, k: PledgeKey, events: seq<ProgramEvent>): nat {
    if events == [] then 0
    else if events[0].Pledged? then EventWeight(m, k, events[0])
    else FirstRecorded(m, k, events[1..])
  }

  // What a history paid on a pledge beyond the first `Pledged` of each transaction.
  function Unrecorded(d: Deployment, m: Measure, k: PledgeKey, history: seq<Tx>): int {
    if history == [] then 0 else
      var init, tx := history[..|history| - 1], history[|history| - 1];
      var events := EventsOf(d, ChainAfter(d, init), tx);
      Unrecorded(d, m, k, init) + EventsWeight(m, k, events) - FirstRecorded(m, k, events)
  }

  // The sum of a measure over all rows of the table.
  ghost function Total(m: Measure, k: PledgeKey, rows: map<Signature, ContributionRow>): int
    decreases rows.Keys
  {
    if rows == map[] then 0
    else
      var s :| s in rows;
      RowWeight(m, k, rows[s]) + Total(m, k, rows - {s})
  }

  lemma {:induction false} TotalRemove(m: Measure, k: PledgeKey, rows: map<Signature, ContributionRow>, x: Signature)
    requires x in rows
    ensures Total(m, k, rows) == RowWeight(m, k, rows[x]) + Total(m, k, rows - {x})
    decreases rows.Keys
  {
    var s :| s in rows && Total(m, k, rows) == RowWeight(m, k, rows[s]) + Total(m, k, rows - {s});
    if s != x {
      TotalRemove(m, k, rows - {s}, x);
      TotalRemove(m, k, rows - {x}, s);
      assert rows - {s} - {x} == rows - {x} - {s};
    }
  }

  lemma TotalInsert(m: Measure, k: PledgeKey, rows: map<Signature, ContributionRow>, s: Signature, row: ContributionRow)
    requires s !in rows
    ensures Total(m, k, rows[s := row]) == Total(m, k, rows) + RowWeight(m, k, row)
  {
    TotalRemove(m, k, rows[s := row], s);
    assert rows[s := row] - {s} == rows;
  }

  ghost function RowsOf(k: PledgeKey, rows: map<Signature, ContributionRow>): set<Signature> {
    set s | s in rows && PledgeKey(rows[s].creator, rows[s].supporter) == k
  }

  ghost function FirstRowsOf(k: PledgeKey, rows: map<Signature, ContributionRow>): set<Signature> {
    set s | s in RowsOf(k, rows) && rows[s].kind == FirstContribution
  }

  lemma RowCounted(k: PledgeKey, rows: map<Signature, ContributionRow>, s: Signature)
    requires s in rows
    ensures |RowsOf(k, rows)| == |RowsOf(k, rows - {s})| + RowWeight(Contributions, k, rows[s])
  {
    if PledgeKey(rows[s].creator, rows[s].supporter) == k {
      assert RowsOf(k, rows) == RowsOf(k, rows - {s}) + {s};
    } else {
      assert RowsOf(k, rows) == RowsOf(k, rows - {s});
    }
  }

  lemma FirstCounted(k: PledgeKey, rows: map<Signature, ContributionRow>, s: Signature)
    requires s in rows
    ensures |FirstRowsOf(k, rows)| == |FirstRowsOf(k, rows - {s})| + RowWeight(Firsts, k, rows[s])
  {
    if PledgeKey(rows[s].creator, rows[s].supporter) == k && rows[s].kind == FirstContribution {
      assert FirstRowsOf(k, rows) == FirstRowsOf(k, rows - {s}) + {s};
    } else {
      assert FirstRowsOf(k, rows) == FirstRowsOf(k, rows - {s});
    }
  }

  lemma {:induction false} TotalsAreCounts(k: PledgeKey, rows: map<Signature, ContributionRow>)
    ensures Total(Contributions, k, rows) == |RowsOf(k, rows)|
    ensures Total(Firsts, k, rows) == |FirstRowsOf(k, rows)|
    decreases rows.Keys
  {
    if rows == map[] {
      assert RowsOf(k, rows) == {} && FirstRowsOf(k, rows) == {};
    } else {
      var s :| s in rows;
      TotalsAreCounts(k, rows - {s});
      TotalRemove(Contributions, k, rows, s);
      TotalRemove(Firsts, k, rows, s);
      RowCounted(k, rows, s);
      FirstCounted(k, rows, s);
    }
  }

  lemma ContributedMeasured(c: Chain, after: Chain, clock: Clock, key: PledgeKey, periods: u8, showPublicly: bool,
                            event: ProgramEvent, m: Measure, k: PledgeKey)
    requires Inv(c) && Contributed(c, after, clock, key, periods, showPublicly)
    requires On(event, key) && event.periods == periods && event.contributions == after.pledges[key].contributions
    ensures ChainMeasure(m, after, k) == ChainMeasure(m, c, k) + EventWeight(m, k, event)
  {
    hide CreatorInv, ExtendExpiry;
    if key in c.pledges { assert PledgeInv(c, key); }
    assert On(event, k) <==> k == key;
  }

  lemma SamePledges(c: Chain, after: Chain, m: Measure, k: PledgeKey)
    requires after.pledges == c.pledges
    ensures ChainMeasure(m, after, k) == ChainMeasure(m, c, k)
  {
  }

  lemma ShownMeasured(c: Chain, after: Chain, key: PledgeKey, showPublicly: bool, m: Measure, k: PledgeKey)
    requires key in c.pledges
    requires after.pledges == c.pledges[key := c.pledges[key].(showPublicly := showPublicly)]
    ensures ChainMeasure(m, after, k) == ChainMeasure(m, c, k)
  {
  }

  lemma CallMeasured(d: Deployment, c: Chain, clock: Clock, sysvar: Sysvar, call: Call, m: Measure, k: PledgeKey)
    requires Inv(c) && Run(d, c, clock, sysvar, call).Ok?
    ensures var step := Run(d, c, clock, sysvar, call).value;
            ChainMeasure(m, step.0, k) == ChainMeasure(m, c, k) + EventWeight(m, k, step.1)
  {
    hide Inv;
    var step := Run(d, c, clock, sysvar, call).value;
    match call {
      case RegisterCreator(_, _, _, _) => SamePledges(c, step.0, m, k);
      case UpdateCreator(_, _, _, _) => SamePledges(c, step.0, m, k);
      case MakePledge(supporter, creator, periods, showPublicly) =>
        ContributeEffect(d, c, clock, sysvar, supporter, creator, periods, showPublicly);
        ContributedMeasured(c, step.0, clock, PledgeKey(creator, supporter), periods, showPublicly, step.1, m, k);
      case SetVisibility(supporter, creator, showPublicly) =>
        ShownMeasured(c, step.0, PledgeKey(creator, supporter), showPublicly, m, k);
    }
  }

  lemma {:induction false} CallsMeasured(d: Deployment, c: Chain, clock: Clock, list: seq<Instruction>, calls: seq<Call>,
                                         m: Measure, k: PledgeKey)
    requires Inv(c) && RunCalls(d, c, clock, list, calls).Ok?
    ensures var done := RunCalls(d, c, clock, list, calls).value;
            ChainMeasure(m, done.0, k) == ChainMeasure(m, c, k) + EventsWeight(m, k, done.1)
    decreases |calls|
  {
    if calls != [] {
      var first := Run(d, c, clock, Instructions(list), calls[0]).value;
      CallMeasured(d, c, clock, Instructions(list), calls[0], m, k);
      RunKeeps(d, c, clock, Instructions(list), calls[0]);
      CallsMeasured(d, first.0, clock, list, calls[1..], m, k);
      var rest := RunCalls(d, first.0, clock, list, calls[1..]).value;
      assert ([first.1] + rest.1)[1..] == rest.1;
    }
  }

  /** The counters of a pledge account are the sums over all the events of the history. */
  lemma TxMeasured(d: Deployment, c: Chain, tx: Tx, m: Measure, k: PledgeKey)
    requires Inv(c)
    ensures ChainMeasure(m, After(d, c, tx), k) == ChainMeasure(m, c, k) + EventsWeight(m, k, EventsOf(d, c, tx))
  {
    if !Fails(d, c, tx) {
      CallsMeasured(d, c, tx.clock, tx.instructions, tx.calls, m, k);
    }
  }

  lemma EventRows(w: World, tx: Tx, event: ProgramEvent, now: int, ix: Index, m: Measure, k: PledgeKey)
    requires Plannable(w, tx, event) && ApplyWrites(ix, EventWrites(w, tx, event, now)).Ok?
    ensures var rows := ApplyWrites(ix, EventWrites(w, tx, event, now)).value.contributions;
            && rows.Keys == ix.contributions.Keys + (if event.Pledged? then {tx.signature} else {})
            && (tx.signature in ix.contributions ==> rows == ix.contributions)
            && (tx.signature !in ix.contributions ==>
                 Total(m, k, rows) == Total(m, k, ix.contributions) + EventWeight(m, k, event))
  {
    var writes := EventWrites(w, tx, event, now);
    var mid := ApplyWrite(ix, writes[0]).value;
    if event.Pledged? {
      assert writes[1..] == [writes[1]];
      OneWrite(mid, writes[1]);
      if tx.signature !in ix.contributions {
        TotalInsert(m, k, ix.contributions, tx.signature, writes[1].contribution);
      }
    } else {
      assert writes == [writes[0]];
      OneWrite(ix, writes[0]);
    }
  }

  lemma {:induction false} EventsRows(w: World, tx: Tx, events: seq<ProgramEvent>, now: int, ix: Index, m: Measure, k: PledgeKey)
    requires AllPlannable(w, tx, events) && ApplyWrites(ix, AllWrites(w, tx, events, now)).Ok?
    ensures var rows := ApplyWrites(ix, AllWrites(w, tx, events, now)).value.contributions;
            && ix.contributions.Keys <= rows.Keys <= ix.contributions.Keys + {tx.signature}
            && (tx.signature in ix.contributions ==> rows == ix.contributions)
            && (tx.signature !in ix.contributions ==>
                 Total(m, k, rows) == Total(m, k, ix.contributions) + FirstRecorded(m, k, events))
    decreases |events|
  {
    if events != [] {
      var first := EventWrites(w, tx, events[0], now);
      PlannableRest(w, tx, events);
      ApplyAppend(ix, first, AllWrites(w, tx, events[1..], now));
      EventRows(w, tx, events[0], now, ix, m, k);
      EventsRows(w, tx, events[1..], now, ApplyWrites(ix, first).value, m, k);
    }
  }

  // A signature identifies one transaction.
  predicate DistinctSignatures(history: seq<Tx>) {
    forall i, j :: 0 <= i < j < |history| ==> history[i].signature != history[j].signature
  }

  ghost function Signatures(history: seq<Tx>): set<Signature> {
    set i | 0 <= i < |history| :: history[i].signature
  }

  lemma SignaturesGrow(history: seq<Tx>)
    requires DistinctSignatures(history) && history != []
    ensures var init, last := history[..|history| - 1], history[|history| - 1].signature;
            last !in Signatures(init) && Signatures(history) == Signatures(init) + {last}
  {
    var init, last := history[..|history| - 1], history[|history| - 1].signature;
    forall s ensures s in Signatures(history) <==> s in Signatures(init) + {last} {
      if s in Signatures(init) {
        var i :| 0 <= i < |init| && init[i].signature == s;
        assert history[i].signature == s;
      }
      if s in Signatures(history) {
        var i :| 0 <= i < |history| && history[i].signature == s;
        assert i < |init| ==> init[i].signature == s;
      }
      if s == last { assert history[|init|].signature == s; }
    }
  }

  // One more transaction on a balanced ledger.
  lemma TxBalances(w: World, c: Chain, tx: Tx, live: bool, now: int, ix: Index, n: Notes, m: Measure, k: PledgeKey)
    requires Sound(w) && Logged(w, c, tx) && Inv(c) && Matches(c, ix, n)
    requires AllStorable(w, tx, EventsOf(w.deployment, c, tx))
    requires tx.signature !in ix.contributions
    ensures var handled := Handle(w.reader, w.rpc, now, ix, Delivered(w, c, tx, live));
            var events := EventsOf(w.deployment, c, tx);
            && handled.Ok?
            && handled.value.contributions.Keys <= ix.contributions.Keys + {tx.signature}
            && Total(m, k, handled.value.contributions) - Total(m, k, ix.contributions)
               == ChainMeasure(m, After(w.deployment, c, tx), k) - ChainMeasure(m, c, k)
                  - (EventsWeight(m, k, events) - FirstRecorded(m, k, events))
  {
    TxRefined(w, c, tx, live, now, ix, n);
    StorableIsPlannable(w, tx, EventsOf(w.deployment, c, tx));
    TxMeasured(w.deployment, c, tx, m, k);
    EventsRows(w, tx, EventsOf(w.deployment, c, tx), now, ix, m, k);
  }

  /** Conservation: for every history, each counter of a pledge is what its rows sum to plus what
      transactions paid on it beyond their first `Pledged`. */
  lemma {:induction false} LedgerBalances(w: World, history: seq<Tx>, live: nat -> bool, now: nat -> int, m: Measure, k: PledgeKey)
    requires Recorded(w, history) && DistinctSignatures(history)
    ensures IndexAfter(w, history, live, now).Ok?
    ensures IndexAfter(w, history, live, now).value.contributions.Keys <= Signatures(history)
    ensures ChainMeasure(m, ChainAfter(w.deployment, history), k)
            == Total(m, k, IndexAfter(w, history, live, now).value.contributions)
               + Unrecorded(w.deployment, m, k, history)
    decreases |history|
  {
    if history != [] {
      var n := |history| - 1;
      var init, tx := history[..n], history[n];
      RecordedPrefix(w, history, n);
      LedgerBalances(w, init, live, now, m, k);
      IndexMatchesChain(w, init, live, now);
      Reachable(w.deployment, init);
      SignaturesGrow(history);
      TxBalances(w, ChainAfter(w.deployment, init), tx, live(n), now(n), IndexAfter(w, init, live, now).value,
                 NotesAfter(w.deployment, init), m, k);
    }
  }

  // Every pledge on `k` is the first pledge of its transaction.
  ghost predicate Leads(k: PledgeKey, events: seq<ProgramEvent>) {
    forall i, j :: 0 <= i < j < |events| && On(events[j], k) ==> !events[i].Pledged?
  }

  lemma {:induction false} RecordedIsLess(m: Measure, k: PledgeKey, events: seq<ProgramEvent>)
    ensures FirstRecorded(m, k, events) <= EventsWeight(m, k, events)
    decreases |events|
  {
    if events != [] {
      RecordedIsLess(m, k, events[1..]);
    }
  }

  lemma {:induction false} WeighsNothing(m: Measure, k: PledgeKey, events: seq<ProgramEvent>)
    ensures (forall i :: 0 <= i < |events| ==> !On(events[i], k)) ==> EventsWeight(m, k, events) == 0
    ensures EventsWeight(Contributions, k, events) == 0 ==> forall i :: 0 <= i < |events| ==> !On(events[i], k)
    decreases |events|
  {
    if events != [] {
      var rest := events[1..];
      WeighsNothing(m, k, rest);
      assert forall i :: 0 <= i < |rest| ==> rest[i] == events[i + 1];
      assert forall i :: 0 < i < |events| ==> events[i] == rest[i - 1];
    }
  }

  lemma {:induction false} LeadsIffRecorded(m: Measure, k: PledgeKey, events: seq<ProgramEvent>)
    ensures Leads(k, events) ==> FirstRecorded(m, k, events) == EventsWeight(m, k, events)
    ensures FirstRecorded(Contributions, k, events) == EventsWeight(Contributions, k, events) ==> Leads(k, events)
    decreases |events|
  {
    if events != [] {
      var rest := events[1..];
      assert forall i :: 0 <= i < |rest| ==> rest[i] == events[i + 1];
      assert forall i :: 0 < i < |events| ==> events[i] == rest[i - 1];
      LeadsIffRecorded(m, k, rest);
      WeighsNothing(m, k, rest);
      if Leads(k, events) {
        forall i, j | 0 <= i < j < |rest| && On(rest[j], k) ensures !rest[i].Pledged? {
          assert rest[i] == events[i + 1] && rest[j] == events[j + 1];
        }
        if events[0].Pledged? {
          forall i | 0 <= i < |rest| ensures !On(rest[i], k) {
            assert rest[i] == events[i + 1];
          }
        }
      }
    }
  }

  ghost predicate AllLead(d: Deployment, k: PledgeKey, history: seq<Tx>) {
    history == [] ||
    (var init, tx := history[..|history| - 1], history[|history| - 1];
     AllLead(d, k, init) && Leads(k, EventsOf(d, ChainAfter(d, init), tx)))
  }

  lemma {:induction false} UnrecordedIffAllLead(d: Deployment, m: Measure, k: PledgeKey, history: seq<Tx>)
    ensures Unrecorded(d, m, k, history) >= 0
    ensures AllLead(d, k, history) ==> Unrecorded(d, m, k, history) == 0
    ensures m == Contributions && Unrecorded(d, m, k, history) == 0 ==> AllLead(d, k, history)
    decreases |history|
  {
    if history != [] {
      var n := |history| - 1;
      var events := EventsOf(d, ChainAfter(d, history[..n]), history[n]);
      UnrecordedIffAllLead(d, m, k, history[..n]);
      RecordedIsLess(m, k, events);
      LeadsIffRecorded(m, k, events);
    }
  }

  /** The ledger of a pledge is exact precisely when every contribution to it is the first pledge of
      its transaction: then the rows number the contributions, their periods sum to the periods paid,
      and one of them, exactly, is the first. */
  lemma LedgerExact(w: World, history: seq<Tx>, live: nat -> bool, now: nat -> int, k: PledgeKey)
    requires Recorded(w, history) && DistinctSignatures(history)
    ensures IndexAfter(w, history, live, now).Ok?
    ensures var pledge, rows := PledgeAt(ChainAfter(w.deployment, history), k),
                                IndexAfter(w, history, live, now).value.contributions;
            && (|RowsOf(k, rows)| == pledge.contributions <==> AllLead(w.deployment, k, history))
            && (AllLead(w.deployment, k, history) ==>
                 && Total(PaidPeriods, k, rows) == pledge.periodsTotal
                 && |FirstRowsOf(k, rows)| == if k in ChainAfter(w.deployment, history).pledges then 1 else 0)
  {
    LedgerBalances(w, history, live, now, Contributions, k);
    LedgerBalances(w, history, live, now, PaidPeriods, k);
    LedgerBalances(w, history, live, now, Firsts, k);
    UnrecordedIffAllLead(w.deployment, Contributions, k, history);
    UnrecordedIffAllLead(w.deployment, PaidPeriods, k, history);
    UnrecordedIffAllLead(w.deployment, Firsts, k, history);
    TotalsAreCounts(k, IndexAfter(w, history, live, now).value.contributions);
  }

  // An accepted contribution is accepted again on the account it left, short of an overflow.
  lemma AcceptedAgain(d: Deployment, c: Chain, after: Chain, clock: Clock, sysvar: Sysvar, supporter: Address,
                      creator: Address, periods: u8, showPublicly: bool)
    requires Inv(c) && Inv(after)
    requires Contribute(d, c, clock, sysvar, supporter, creator, periods, showPublicly).Ok?
    requires Contributed(c, after, clock, PledgeKey(creator, supporter), periods, showPublicly)
    requires RoomFor(clock, after.pledges[PledgeKey(creator, supporter)], periods)
    ensures Contribute(d, after, clock, sysvar, supporter, creator, periods, showPublicly).Ok?
  {
    AcceptedIff(d, c, clock, sysvar, supporter, creator, periods, showPublicly);
    AcceptedIff(d, after, clock, sysvar, supporter, creator, periods, showPublicly);
    assert PledgeInv(after, PledgeKey(creator, supporter));
  }

  lemma TwoCalls(d: Deployment, c: Chain, clock: Clock, list: seq<Instruction>, call: Call,
                 c1: Chain, e1: ProgramEvent, c2: Chain, e2: ProgramEvent)
    requires Run(d, c, clock, Instructions(list), call) == Ok((c1, e1))
    requires Run(d, c1, clock, Instructions(list), call) == Ok((c2, e2))
    ensures RunCalls(d, c, clock, list, [call, call]) == Ok((c2, [e1, e2]))
  {
    assert [call, call][1..] == [call] && [call][1..] == [];
    assert [e2] + [] == [e2] && [e1] + [e2] == [e1, e2];
    assert RunCalls(d, c2, clock, list, []) == Ok((c2, []));
    assert RunCalls(d, c1, clock, list, [call]) == Ok((c2, [e2]));
  }

  lemma TwoEvents(k: PledgeKey, e1: ProgramEvent, e2: ProgramEvent)
    requires On(e1, k) && On(e2, k)
    ensures EventsWeight(Contributions, k, [e1, e2]) == 2
    ensures FirstRecorded(Contributions, k, [e1, e2]) == 1
  {
    assert [e1, e2][1..] == [e2] && [e2][1..] == [];
    assert EventsWeight(Contributions, k, [e2]) == 1;
  }

  // Counters and clock leave room for two more contributions.
  ghost predicate Room(clock: Clock, p: Pledge, periods: u8) {
    && p.periodsTotal + 2 * periods <= U32_MAX
    && p.contributions + 2 <= U32_MAX
    && Max(clock.unixTimestamp, p.expiresAt) + 2 * (periods * PERIOD_SECONDS) <= I64_MAX
  }

  lemma RoomLeft(c: Chain, after: Chain, clock: Clock, key: PledgeKey, periods: u8, showPublicly: bool)
    requires Contributed(c, after, clock, key, periods, showPublicly)
    requires Room(clock, PledgeAt(c, key), periods)
    ensures RoomFor(clock, after.pledges[key], periods)
  {
  }

  lemma RoomForAnother(d: Deployment, c: Chain, clock: Clock, sysvar: Sysvar, supporter: Address,
                       creator: Address, periods: u8, showPublicly: bool, after: Chain, event: ProgramEvent)
    requires Inv(c) && Room(clock, PledgeAt(c, PledgeKey(creator, supporter)), periods)
    requires Contribute(d, c, clock, sysvar, supporter, creator, periods, showPublicly) == Ok((after, event))
    ensures Inv(after) && On(event, PledgeKey(creator, supporter))
    ensures Contribute(d, after, clock, sysvar, supporter, creator, periods, showPublicly).Ok?
  {
    ContributeEffect(d, c, clock, sysvar, supporter, creator, periods, showPublicly);
    ContributedKeeps(c, after, clock, PledgeKey(creator, supporter), periods, showPublicly);
    RoomLeft(c, after, clock, PledgeKey(creator, supporter), periods, showPublicly);
    AcceptedAgain(d, c, after, clock, sysvar, supporter, creator, periods, showPublicly);
  }

  /** One transfer backs any number of pledges of its transaction: repeating an accepted pledge call
      in the same transaction is accepted, short of an overflow, and only one of the two is recorded. */
  lemma OneTransferTwoPledges(d: Deployment, c: Chain, clock: Clock, list: seq<Instruction>, supporter: Address,
                              creator: Address, periods: u8, showPublicly: bool)
    requires Inv(c) && Room(clock, PledgeAt(c, PledgeKey(creator, supporter)), periods)
    requires Run(d, c, clock, Instructions(list), MakePledge(supporter, creator, periods, showPublicly)).Ok?
    ensures var call := MakePledge(supporter, creator, periods, showPublicly);
            var k := PledgeKey(creator, supporter);
            var done := RunCalls(d, c, clock, list, [call, call]);
            && done.Ok?
            && EventsWeight(Contributions, k, done.value.1) == 2
            && FirstRecorded(Contributions, k, done.value.1) == 1
  {
    var call := MakePledge(supporter, creator, periods, showPublicly);
    var k := PledgeKey(creator, supporter);
    var sysvar := Instructions(list);
    var (c1, e1) := Run(d, c, clock, sysvar, call).value;
    RoomForAnother(d, c, clock, sysvar, supporter, creator, periods, showPublicly, c1, e1);
    var (c2, e2) := Run(d, c1, clock, sysvar, call).value;
    EventIsOn(d, c1, clock, sysvar, supporter, creator, periods, showPublicly, c2, e2);
    TwoCalls(d, c, clock, list, call, c1, e1, c2, e2);
    TwoEvents(k, e1, e2);
  }

  lemma EventIsOn(d: Deployment, c: Chain, clock: Clock, sysvar: Sysvar, supporter: Address,
                  creator: Address, periods: u8, showPublicly: bool, after: Chain, event: ProgramEvent)
    requires Inv(c) && Contribute(d, c, clock, sysvar, supporter, creator, periods, showPublicly) == Ok((after, event))
    ensures On(event, PledgeKey(creator, supporter))
  {
    ContributeEffect(d, c, clock, sysvar, supporter, creator, periods, showPublicly);
  }

  // Everything the events of a history say was paid on a pledge.
  function Paid(d: Deployment, m: Measure, k: PledgeKey, history: seq<Tx>): nat {
    if history == [] then 0 else
      var init, tx := history[..|history| - 1], history[|history| - 1];
      Paid(d, m, k, init) + EventsWeight(m, k, EventsOf(d, ChainAfter(d, init), tx))
  }

  lemma {:induction false} CountersAreEvents(d: Deployment, m: Measure, k: PledgeKey, history: seq<Tx>)
    ensures ChainMeasure(m, ChainAfter(d, history), k) == Paid(d, m, k, history)
    decreases |history|
  {
    if history != [] {
      var n := |history| - 1;
      CountersAreEvents(d, m, k, history[..n]);
      Reachable(d, history[..n]);
      TxMeasured(d, ChainAfter(d, history[..n]), history[n], m, k);
    }
  }

  ghost predicate BackedEvent(d: Deployment, list: seq<Instruction>, e: ProgramEvent) {
    e.Pledged? ==> d.mint.Some? && Backed(list, Expected(d, d.mint.value, e.supporter, e.creator))
  }

  lemma CallBacked(d: Deployment, c: Chain, clock: Clock, list: seq<Instruction>, call: Call)
    requires Inv(c) && Run(d, c, clock, Instructions(list), call).Ok?
    ensures BackedEvent(d, list, Run(d, c, clock, Instructions(list), call).value.1)
  {
    if call.MakePledge? {
      var (after, e) := Run(d, c, clock, Instructions(list), call).value;
      AcceptedIff(d, c, clock, Instructions(list), call.supporter, call.creator, call.periods, call.showPublicly);
      ContributeEffect(d, c, clock, Instructions(list), call.supporter, call.creator, call.periods, call.showPublicly);
    }
  }

  lemma {:induction false} CallsBacked(d: Deployment, c: Chain, clock: Clock, list: seq<Instruction>, calls: seq<Call>)
    requires Inv(c) && RunCalls(d, c, clock, list, calls).Ok?
    ensures forall e :: e in RunCalls(d, c, clock, list, calls).value.1 ==> BackedEvent(d, list, e)
    decreases |calls|
  {
    if calls != [] {
      CallBacked(d, c, clock, list, calls[0]);
      RunKeeps(d, c, clock, Instructions(list), calls[0]);
      CallsBacked(d, Run(d, c, clock, Instructions(list), calls[0]).value.0, clock, list, calls[1..]);
    }
  }

  /** No transfer, no record: in every history, each pledge event comes from a transaction with a
      confidential transfer from that supporter to that creator in the platform's mint, and the
      counters of the account count those events and nothing else. */
  lemma EveryContributionBacked(d: Deployment, history: seq<Tx>, i: nat, k: PledgeKey)
    requires i < |history|
    ensures forall e :: e in EventsOf(d, ChainAfter(d, history[..i]), history[i]) ==> BackedEvent(d, history[i].instructions, e)
    ensures PledgeAt(ChainAfter(d, history), k).contributions == Paid(d, Contributions, k, history)
    ensures PledgeAt(ChainAfter(d, history), k).periodsTotal == Paid(d, PaidPeriods, k, history)
  {
    var c, tx := ChainAfter(d, history[..i]), history[i];
    Reachable(d, history[..i]);
    if !Fails(d, c, tx) {
      CallsBacked(d, c, tx.clock, tx.instructions, tx.calls);
    }
    CountersAreEvents(d, Contributions, k, history);
    CountersAreEvents(d, PaidPeriods, k, history);
  }
}
