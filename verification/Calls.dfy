/** The accepted calls of a history, and what the accounts keep of them: each field that calls
    overwrite is that of the last accepted call on the account. */
module Calls {
  import opened Common
  import opened Introspect
  import opened Program
  import opened Runs

  // A call at the clock of its transaction.
  datatype Accepted = Accepted(call: Call, clock: Clock)

  function Stamped(clock: Clock, calls: seq<Call>): seq<Accepted> {
    if calls == [] then [] else [Accepted(calls[0], clock)] + Stamped(clock, calls[1..])
  }

  // The calls of the transactions that did not fail, in order.
  function AcceptedCalls(d: Deployment, history: seq<Tx>): seq<Accepted> {
    if history == [] then []
    else
      var init, tx := history[..|history| - 1], history[|history| - 1];
      AcceptedCalls(d, init) + if Fails(d, ChainAfter(d, init), tx) then [] else Stamped(tx.clock, tx.calls)
  }

  // The calls that write a field: `Flag` pledges and changes the visibility, `Text` registers and updates.
  datatype Kind = Paid(key: PledgeKey) | Flag(key: PledgeKey) | Registered(wallet: Address) | Text(wallet: Address)

  predicate Of(call: Call, kind: Kind) {
    match kind
    case Paid(k) => call.MakePledge? && call.creator == k.creator && call.supporter == k.supporter
    case Flag(k) => (call.MakePledge? || call.SetVisibility?) && call.creator == k.creator && call.supporter == k.supporter
    case Registered(w) => call.RegisterCreator? && call.wallet == w
    case Text(w) => (call.RegisterCreator? || call.UpdateCreator?) && call.wallet == w
  }

  ghost predicate IsLast(done: seq<Accepted>, kind: Kind, a: Accepted) {
    exists i :: 0 <= i < |done| && done[i] == a && Of(a.call, kind) && forall j :: i < j < |done| ==> !Of(done[j].call, kind)
  }

  ghost predicate Never(done: seq<Accepted>, kind: Kind) {
    forall i :: 0 <= i < |done| ==> !Of(done[i].call, kind)
  }

  // One more call is the last of its kind, or leaves the last one as it was.
  lemma LastOf(done: seq<Accepted>, kind: Kind, a: Accepted)
    ensures Of(a.call, kind) ==> IsLast(done + [a], kind, a)
    ensures !Of(a.call, kind) && Never(done, kind) ==> Never(done + [a], kind)
    ensures !Of(a.call, kind) ==> forall b :: IsLast(done, kind, b) ==> IsLast(done + [a], kind, b)
  {
    hide Of;
    var all := done + [a];
    assert all[|done|] == a;
    assert forall i :: 0 <= i < |done| ==> all[i] == done[i];
    forall b | !Of(a.call, kind) && IsLast(done, kind, b) ensures IsLast(all, kind, b) {
      var i :| 0 <= i < |done| && done[i] == b && Of(b.call, kind) && forall j :: i < j < |done| ==> !Of(done[j].call, kind);
      assert all[i] == b;
    }
  }

  ghost predicate FlagIs(done: seq<Accepted>, k: PledgeKey, flag: bool) {
    exists a :: IsLast(done, Flag(k), a) && Of(a.call, Flag(k)) && flag == a.call.showPublicly
  }

  ghost predicate SlotIs(done: seq<Accepted>, k: PledgeKey, slot: u64) {
    exists a :: IsLast(done, Paid(k), a) && slot == a.clock.slot
  }

  // What a pledge account shows of the calls on it: the flag of the last one, the slot of the last pledge.
  ghost predicate PledgeShows(c: Chain, k: PledgeKey, done: seq<Accepted>) {
    if k !in c.pledges then Never(done, Flag(k))
    else FlagIs(done, k, c.pledges[k].showPublicly) && SlotIs(done, k, c.pledges[k].lastSlot)
  }

  lemma FlagNext(done: seq<Accepted>, k: PledgeKey, flag: bool, a: Accepted)
    ensures Of(a.call, Flag(k)) ==> FlagIs(done + [a], k, a.call.showPublicly)
    ensures !Of(a.call, Flag(k)) && FlagIs(done, k, flag) ==> FlagIs(done + [a], k, flag)
  {
    LastOf(done, Flag(k), a);
    hide IsLast;
  }

  lemma SlotNext(done: seq<Accepted>, k: PledgeKey, slot: u64, a: Accepted)
    ensures Of(a.call, Paid(k)) ==> SlotIs(done + [a], k, a.clock.slot)
    ensures !Of(a.call, Paid(k)) && SlotIs(done, k, slot) ==> SlotIs(done + [a], k, slot)
  {
    LastOf(done, Paid(k), a);
    hide IsLast;
  }

  // What a profile shows of the calls on it.
  ghost predicate ProfileShows(c: Chain, w: Address, done: seq<Accepted>) {
    if w !in c.creators then Never(done, Text(w))
    else
      var p := c.creators[w];
      && (exists a :: IsLast(done, Text(w), a) && Of(a.call, Text(w)) && p.name == a.call.name
            && p.description == a.call.description
            && p.suggestedAmount == if a.call.UpdateCreator? then a.call.suggestedAmount else 0)
      && (exists a :: IsLast(done, Registered(w), a) && Of(a.call, Registered(w))
            && p.createdAt == a.clock.unixTimestamp && Holds(p.handle, a.call.handle))
  }

  // What an accepted call does to the flag and the slot of a pledge.
  ghost predicate OnPledge(c: Chain, after: Chain, clock: Clock, call: Call, k: PledgeKey) {
    && (Of(call, Flag(k)) ==> k in after.pledges && after.pledges[k].showPublicly == call.showPublicly)
    && (Of(call, Paid(k)) ==> after.pledges[k].lastSlot == clock.slot)
    && (Of(call, Flag(k)) && !Of(call, Paid(k)) ==> k in c.pledges && after.pledges[k].lastSlot == c.pledges[k].lastSlot)
    && (!Of(call, Flag(k)) ==> (k in after.pledges <==> k in c.pledges) && PledgeAt(after, k) == PledgeAt(c, k))
  }

  // What an accepted call does to a profile, apart from the count of its pledges.
  ghost predicate OnProfile(c: Chain, after: Chain, clock: Clock, call: Call, w: Address) {
    && (Of(call, Text(w)) ==>
          && w in after.creators && after.creators[w].name == call.name && after.creators[w].description == call.description
          && after.creators[w].suggestedAmount == if call.UpdateCreator? then call.suggestedAmount else 0)
    && (Of(call, Registered(w)) ==> after.creators[w].createdAt == clock.unixTimestamp && Holds(after.creators[w].handle, call.handle))
    && (Of(call, Text(w)) && !Of(call, Registered(w)) ==>
          && w in c.creators && after.creators[w].createdAt == c.creators[w].createdAt
          && after.creators[w].handle == c.creators[w].handle)
    && (!Of(call, Text(w)) ==>
          && (w in after.creators <==> w in c.creators)
          && (w in c.creators ==> after.creators[w] == c.creators[w].(pledgesTotal := after.creators[w].pledgesTotal)))
  }

  lemma RegisterOn(c: Chain, clock: Clock, call: Call, r: Program.Step, k: PledgeKey, w: Address)
    requires call.RegisterCreator? && r.Ok?
    requires RegisterDoes(c, clock, call.wallet, call.handle, call.name, call.description, r)
    ensures OnPledge(c, r.value.0, clock, call, k) && OnProfile(c, r.value.0, clock, call, w)
  {
    hide Holds, LegalHandle, RegisterRefused;
  }

  lemma UpdateOn(c: Chain, clock: Clock, call: Call, r: Program.Step, k: PledgeKey, w: Address)
    requires call.UpdateCreator? && r.Ok?
    requires UpdateDoes(c, clock, call.wallet, call.name, call.description, call.suggestedAmount, r)
    ensures OnPledge(c, r.value.0, clock, call, k) && OnProfile(c, r.value.0, clock, call, w)
  {
    hide Holds, UpdateRefused;
  }

  lemma PledgeOn(c: Chain, after: Chain, clock: Clock, call: Call, k: PledgeKey, w: Address)
    requires call.MakePledge?
    requires Contributed(c, after, clock, PledgeKey(call.creator, call.supporter), call.periods, call.showPublicly)
    ensures OnPledge(c, after, clock, call, k) && OnProfile(c, after, clock, call, w)
  {
    hide Holds;
  }

  lemma ShowOn(c: Chain, clock: Clock, call: Call, r: Program.Step, k: PledgeKey, w: Address)
    requires call.SetVisibility? && r.Ok?
    requires ShowDoes(c, clock, PledgeKey(call.creator, call.supporter), call.showPublicly, r)
    ensures OnPledge(c, r.value.0, clock, call, k) && OnProfile(c, r.value.0, clock, call, w)
  {
    hide Holds;
  }

  lemma CallOn(d: Deployment, c: Chain, clock: Clock, sysvar: Sysvar, call: Call, k: PledgeKey, w: Address)
    requires Inv(c) && Run(d, c, clock, sysvar, call).Ok?
    ensures OnPledge(c, Run(d, c, clock, sysvar, call).value.0, clock, call, k)
    ensures OnProfile(c, Run(d, c, clock, sysvar, call).value.0, clock, call, w)
  {
    hide Inv, Register, Update, Contribute, Show, OnPledge, OnProfile, RegisterDoes, UpdateDoes, Contributed, ShowDoes;
    var r := Run(d, c, clock, sysvar, call);
    match call {
      case RegisterCreator(wallet, handle, name, description) =>
        RegisterEffect(c, clock, wallet, handle, name, description);
        RegisterOn(c, clock, call, r, k, w);
      case UpdateCreator(wallet, name, description, suggestedAmount) =>
        UpdateEffect(c, clock, wallet, name, description, suggestedAmount);
        UpdateOn(c, clock, call, r, k, w);
      case MakePledge(supporter, creator, periods, showPublicly) =>
        ContributeEffect(d, c, clock, sysvar, supporter, creator, periods, showPublicly);
        PledgeOn(c, r.value.0, clock, call, k, w);
      case SetVisibility(supporter, creator, showPublicly) =>
        ShowEffect(c, clock, supporter, creator, showPublicly);
        ShowOn(c, clock, call, r, k, w);
    }
  }

  lemma CallShows(d: Deployment, c: Chain, clock: Clock, sysvar: Sysvar, call: Call, k: PledgeKey, done: seq<Accepted>)
    requires Inv(c) && Run(d, c, clock, sysvar, call).Ok? && PledgeShows(c, k, done)
    ensures PledgeShows(Run(d, c, clock, sysvar, call).value.0, k, done + [Accepted(call, clock)])
  {
    var a := Accepted(call, clock);
    CallOn(d, c, clock, sysvar, call, k, k.creator);
    LastOf(done, Flag(k), a);
    hide Run, Inv, IsLast, Never, FlagIs, SlotIs;
    var before := PledgeAt(c, k);
    FlagNext(done, k, before.showPublicly, a);
    SlotNext(done, k, before.lastSlot, a);
  }

  lemma CallDescribes(d: Deployment, c: Chain, clock: Clock, sysvar: Sysvar, call: Call, w: Address, done: seq<Accepted>)
    requires Inv(c) && Run(d, c, clock, sysvar, call).Ok? && ProfileShows(c, w, done)
    ensures ProfileShows(Run(d, c, clock, sysvar, call).value.0, w, done + [Accepted(call, clock)])
  {
    var a := Accepted(call, clock);
    CallOn(d, c, clock, sysvar, call, PledgeKey(w, w), w);
    hide Run, Inv, IsLast, Never, Holds;
    LastOf(done, Text(w), a);
    LastOf(done, Registered(w), a);
  }

  // What the calls of one transaction do to the account of a pledge and to a profile.
  lemma {:induction false} CallsShow(d: Deployment, c: Chain, clock: Clock, list: seq<Instruction>, calls: seq<Call>,
                                     k: PledgeKey, w: Address, done: seq<Accepted>)
    requires Inv(c) && RunCalls(d, c, clock, list, calls).Ok? && PledgeShows(c, k, done) && ProfileShows(c, w, done)
    ensures PledgeShows(RunCalls(d, c, clock, list, calls).value.0, k, done + Stamped(clock, calls))
    ensures ProfileShows(RunCalls(d, c, clock, list, calls).value.0, w, done + Stamped(clock, calls))
    decreases |calls|
  {
    hide Run, Inv, PledgeShows, ProfileShows;
    if calls == [] {
      assert done + [] == done;
    } else {
      var first := Run(d, c, clock, Instructions(list), calls[0]).value;
      CallShows(d, c, clock, Instructions(list), calls[0], k, done);
      CallDescribes(d, c, clock, Instructions(list), calls[0], w, done);
      RunKeeps(d, c, clock, Instructions(list), calls[0]);
      CallsShow(d, first.0, clock, list, calls[1..], k, w, done + [Accepted(calls[0], clock)]);
      assert done + Stamped(clock, calls) == done + [Accepted(calls[0], clock)] + Stamped(clock, calls[1..]);
    }
  }

  /** On every history, a pledge account shows what the last accepted pledge or visibility call on it
      asked for and the slot of the last pledge; a profile shows the texts and the amount of the last
      accepted registration or update, and the handle and time of the registration. */
  lemma {:induction false} AccountsShowLastCalls(d: Deployment, history: seq<Tx>, k: PledgeKey, w: Address)
    ensures PledgeShows(ChainAfter(d, history), k, AcceptedCalls(d, history))
    ensures ProfileShows(ChainAfter(d, history), w, AcceptedCalls(d, history))
    decreases |history|
  {
    if history != [] {
      var n := |history| - 1;
      var c, tx := ChainAfter(d, history[..n]), history[n];
      AccountsShowLastCalls(d, history[..n], k, w);
      Reachable(d, history[..n]);
      hide PledgeShows, ProfileShows, Inv, RunCalls;
      if Fails(d, c, tx) {
        assert AcceptedCalls(d, history) == AcceptedCalls(d, history[..n]);
      } else {
        CallsShow(d, c, tx.clock, tx.instructions, tx.calls, k, w, AcceptedCalls(d, history[..n]));
      }
    } else {
      assert AcceptedCalls(d, history) == [];
    }
  }
}
