/** The decrypt pool: a scheduler over a fixed set of web workers that start, answer, die and are
    terminated in any order. The state records, beside the program's own variables, what every
    accepted job has come to. */
module Pool {
  import opened Common

  datatype Job = Job(id: string, groupedLo: seq<byte>, groupedHi: seq<byte>)

  // A job with the promise it was accepted under; `ticket` is the order of acceptance.
  datatype Pending = Pending(ticket: nat, job: Job)

  datatype Slot = Slot(worker: nat, ready: bool, current: Option<Pending>)

  datatype Outcome<R> = Resolved(worker: nat, id: string, result: R) | Rejected

  datatype Fate<R> = Queued | Running(worker: nat) | Settled(outcome: Outcome<R>)

  datatype Post = Post(worker: nat, ticket: nat)

  /** `queue`, `slots`, `inFlight` and `terminated` are the variables of the pool. `jobs` are the
      accepted jobs, `fates` what became of them, `posted` the decrypt messages sent so far, and
      `settling` the ids whose promise is settled but not yet forgotten. */
  datatype State<R> = State(
    queue: seq<Pending>, slots: seq<Slot>, inFlight: map<string, nat>, terminated: bool,
    jobs: seq<Job>, fates: seq<Fate<R>>, posted: seq<Post>, settling: set<string>)

  function Init<R>(size: nat): State<R> {
    State(
      [], seq(size, i requires 0 <= i < size => Slot(i, false, None)), map[], false, [], [], [], {})
  }

  // Head of the queue to slot `i`.
  function Assign<R>(s: State<R>, i: nat): State<R>
    requires i < |s.slots| && s.queue != [] && s.queue[0].ticket < |s.fates|
  {
    var next, worker := s.queue[0], s.slots[i].worker;
    s.(queue := s.queue[1..],
       slots := s.slots[i := s.slots[i].(current := Some(next))],
       fates := s.fates[next.ticket := Running(worker)],
       posted := s.posted + [Post(worker, next.ticket)])
  }

  ghost predicate Tickets<R>(s: State<R>) {
    && |s.fates| == |s.jobs|
    && (forall i :: 0 <= i < |s.queue| ==> s.queue[i].ticket < |s.jobs|)
    && (forall i :: 0 <= i < |s.slots| && s.slots[i].current.Some? ==> s.slots[i].current.value.ticket < |s.jobs|)
  }

  ghost function PumpFrom<R>(s: State<R>, i: nat): (r: State<R>)
    requires Tickets(s) && i <= |s.slots|
    ensures Tickets(r) && |r.slots| == |s.slots|
    decreases |s.slots| - i
  {
    if i == |s.slots| then s
    else if !s.slots[i].ready || s.slots[i].current.Some? then PumpFrom(s, i + 1)
    else if s.queue == [] then s
    else PumpFrom(Assign(s, i), i + 1)
  }

  ghost function Pump<R>(s: State<R>): State<R>
    requires Tickets(s)
  {
    PumpFrom(s, 0)
  }

  // A promise is settled now; the map entry goes with the microtask that follows.
  function Settle<R>(s: State<R>, p: Pending, outcome: Outcome<R>): State<R>
    requires p.ticket < |s.fates|
  {
    s.(fates := s.fates[p.ticket := Settled(outcome)], settling := s.settling + {p.job.id})
  }

  function SettleAll<R>(s: State<R>, ps: seq<Pending>, outcome: Outcome<R>): (r: State<R>)
    requires forall i :: 0 <= i < |ps| ==> ps[i].ticket < |s.fates|
    ensures |r.fates| == |s.fates| && r.jobs == s.jobs && r.slots == s.slots && r.queue == s.queue
    decreases |ps|
  {
    if ps == [] then s else SettleAll(Settle(s, ps[0], outcome), ps[1..], outcome)
  }

  datatype Reply = Refused | Promise(ticket: nat)

  function Accept<R>(s: State<R>, job: Job): State<R> {
    var ticket := |s.jobs|;
    s.(queue := s.queue + [Pending(ticket, job)], jobs := s.jobs + [job], fates := s.fates + [Queued],
       inFlight := s.inFlight[job.id := ticket])
  }

  ghost function Submit<R>(s: State<R>, job: Job): (State<R>, Reply)
    requires Tickets(s)
  {
    if s.terminated then (s, Refused)
    else if job.id in s.inFlight then (s, Promise(s.inFlight[job.id]))
    else (Pump(Accept(s, job)), Promise(|s.jobs|))
  }

  ghost function Ready<R>(s: State<R>, i: nat): State<R>
    requires Tickets(s) && i < |s.slots|
  {
    Pump(s.(slots := s.slots[i := s.slots[i].(ready := true)]))
  }

  // The state a result leaves before the pump: the job is resolved if the slot holds that id.
  function Taken<R>(s: State<R>, i: nat, id: string, result: R): State<R>
    requires |s.fates| == |s.jobs| && i < |s.slots|
    requires s.slots[i].current.Some? ==> s.slots[i].current.value.ticket < |s.jobs|
  {
    var slot := s.slots[i];
    if slot.current.Some? && slot.current.value.job.id == id then
      Settle(s.(slots := s.slots[i := slot.(current := None)]), slot.current.value,
             Resolved(slot.worker, id, result))
    else s
  }

  ghost function Answered<R>(s: State<R>, i: nat, id: string, result: R): State<R>
    requires Tickets(s) && i < |s.slots|
  {
    Pump(Taken(s, i, id, result))
  }

  function Without(slots: seq<Slot>, i: nat): seq<Slot>
    requires i < |slots|
  {
    slots[..i] + slots[i + 1..]
  }

  // A worker is gone, and its job is rejected.
  ghost function Release<R>(s: State<R>, i: nat): (r: State<R>)
    requires Tickets(s) && i < |s.slots|
    ensures Tickets(r) && |r.slots| == |s.slots| - 1
  {
    var slot := s.slots[i];
    var gone := s.(slots := Without(s.slots, i));
    if slot.current.Some? then Settle(gone, slot.current.value, Rejected) else gone
  }

  ghost function ReleaseAll<R>(s: State<R>): (r: State<R>)
    requires Tickets(s)
    ensures Tickets(r) && r.slots == []
    decreases |s.slots|
  {
    if s.slots == [] then s else ReleaseAll(Release(s, 0))
  }

  // Every waiting job is rejected.
  ghost function Flush<R>(s: State<R>): (r: State<R>)
    requires Tickets(s)
    ensures Tickets(r)
  {
    SettleAll(s.(queue := []), s.queue, Rejected)
  }

  ghost function Drop<R>(s: State<R>, i: nat): State<R>
    requires Tickets(s) && i < |s.slots|
  {
    if |s.slots| > 1 then Release(s, i) else Flush(Release(s, i))
  }

  ghost function Shut<R>(s: State<R>): State<R>
    requires Tickets(s)
  {
    Flush(ReleaseAll(s)).(terminated := true)
  }

  // The microtask behind a settled promise.
  function Forget<R>(s: State<R>, id: string): State<R> {
    if id in s.settling then s.(inFlight := s.inFlight - {id}, settling := s.settling - {id}) else s
  }

  ghost predicate Increasing(ps: seq<Pending>) {
    forall i, j :: 0 <= i < j < |ps| ==> ps[i].ticket < ps[j].ticket
  }

  // Where a job can be found.
  ghost predicate Among(ps: seq<Pending>, t: nat) {
    exists i: nat :: i < |ps| && ps[i].ticket == t
  }

  ghost predicate InSlot<R>(s: State<R>, i: nat, t: nat) {
    i < |s.slots| && s.slots[i].current.Some? && s.slots[i].current.value.ticket == t
  }

  ghost predicate QueueInv<R>(s: State<R>) {
    && Tickets(s) && Increasing(s.queue)
    && (forall i :: 0 <= i < |s.queue| ==> s.queue[i].job == s.jobs[s.queue[i].ticket])
    && (forall t :: 0 <= t < |s.jobs| ==> (s.fates[t].Queued? <==> Among(s.queue, t)))
  }

  ghost predicate SlotInv<R>(s: State<R>) {
    && Tickets(s)
    && (forall i, j :: 0 <= i < j < |s.slots| ==> s.slots[i].worker != s.slots[j].worker)
    && (forall i :: 0 <= i < |s.slots| && s.slots[i].current.Some? ==>
          var p := s.slots[i].current.value;
          && s.slots[i].ready
          && p.job == s.jobs[p.ticket]
          && s.fates[p.ticket] == Running(s.slots[i].worker)
          && Post(s.slots[i].worker, p.ticket) in s.posted)
    && (forall t :: 0 <= t < |s.jobs| && s.fates[t].Running? ==>
          exists i: nat :: InSlot(s, i, t) && s.slots[i].worker == s.fates[t].worker)
  }

  ghost predicate PostInv<R>(s: State<R>) {
    && (forall i, j :: 0 <= i < j < |s.posted| ==> s.posted[i].ticket < s.posted[j].ticket)
    && (forall i, j :: 0 <= i < |s.posted| && 0 <= j < |s.queue| ==> s.posted[i].ticket < s.queue[j].ticket)
    && (forall i :: 0 <= i < |s.posted| ==> s.posted[i].ticket < |s.jobs|)
  }

  ghost predicate SettledInv<R>(s: State<R>) {
    && |s.fates| == |s.jobs|
    && (forall t :: 0 <= t < |s.jobs| && s.fates[t].Settled? && s.fates[t].outcome.Resolved? ==>
          && s.fates[t].outcome.id == s.jobs[t].id
          && Post(s.fates[t].outcome.worker, t) in s.posted)
  }

  ghost predicate IdInv<R>(s: State<R>) {
    && |s.fates| == |s.jobs|
    && (forall id :: id in s.inFlight ==>
          && s.inFlight[id] < |s.jobs|
          && s.jobs[s.inFlight[id]].id == id
          && (s.fates[s.inFlight[id]].Settled? <==> id in s.settling))
    && (forall t :: 0 <= t < |s.jobs| && !s.fates[t].Settled? ==>
          s.jobs[t].id in s.inFlight && s.inFlight[s.jobs[t].id] == t)
    && s.settling <= s.inFlight.Keys
  }

  ghost predicate Core<R>(s: State<R>) {
    && QueueInv(s) && SlotInv(s) && PostInv(s) && SettledInv(s) && IdInv(s)
    && (s.terminated ==> s.slots == [] && s.queue == [])
  }

  // No ready worker idles while a job waits.
  ghost predicate Busy<R>(s: State<R>, n: nat) {
    s.queue != [] ==> forall i :: 0 <= i < n && i < |s.slots| && s.slots[i].ready ==> s.slots[i].current.Some?
  }

  ghost predicate Inv<R>(s: State<R>) {
    Core(s) && Busy(s, |s.slots|)
  }

  lemma InitInv<R>(size: nat)
    ensures Inv(Init<R>(size))
  {
  }

  lemma AssignQueue<R>(s: State<R>, i: nat)
    requires Core(s) && i < |s.slots| && s.slots[i].current.None? && s.slots[i].ready && s.queue != []
    ensures QueueInv(Assign(s, i)) && PostInv(Assign(s, i))
  {
    hide SlotInv, SettledInv, IdInv;
    var r := Assign(s, i);
    var t0 := s.queue[0].ticket;
    assert forall j :: 0 <= j < |r.queue| ==> r.queue[j] == s.queue[j + 1];
    forall t | 0 <= t < |r.jobs| ensures r.fates[t].Queued? <==> Among(r.queue, t) {
      if Among(r.queue, t) {
        var j: nat :| j < |r.queue| && r.queue[j].ticket == t;
        assert s.queue[j + 1].ticket == t && s.queue[0].ticket < s.queue[j + 1].ticket;
        assert Among(s.queue, t);
      }
      if t != t0 && Among(s.queue, t) {
        var j: nat :| j < |s.queue| && s.queue[j].ticket == t;
        assert r.queue[j - 1].ticket == t;
      }
    }
  }

  lemma AssignSlots<R>(s: State<R>, i: nat)
    requires Core(s) && i < |s.slots| && s.slots[i].current.None? && s.slots[i].ready && s.queue != []
    ensures SlotInv(Assign(s, i)) && SettledInv(Assign(s, i)) && IdInv(Assign(s, i))
  {
    hide PostInv, Increasing;
    var r := Assign(s, i);
    var t0 := s.queue[0].ticket;
    assert Among(s.queue, t0);
    forall t | 0 <= t < |r.jobs| && r.fates[t].Running?
      ensures exists j: nat :: InSlot(r, j, t) && r.slots[j].worker == r.fates[t].worker
    {
      if t == t0 {
        assert InSlot(r, i, t);
      } else {
        var j: nat :| InSlot(s, j, t) && s.slots[j].worker == s.fates[t].worker;
        assert InSlot(r, j, t);
      }
    }
  }

  lemma {:induction false} PumpKeeps<R>(s: State<R>, i: nat)
    requires Core(s) && Busy(s, i) && i <= |s.slots|
    ensures Inv(PumpFrom(s, i))
    decreases |s.slots| - i
  {
    hide SlotInv, PostInv, SettledInv, IdInv;
    if i == |s.slots| || (s.slots[i].ready && s.slots[i].current.None? && s.queue == []) {
    } else if !s.slots[i].ready || s.slots[i].current.Some? {
      PumpKeeps(s, i + 1);
    } else {
      AssignQueue(s, i);
      AssignSlots(s, i);
      PumpKeeps(Assign(s, i), i + 1);
    }
  }

  lemma AcceptQueue<R>(s: State<R>, job: Job)
    requires QueueInv(s)
    ensures QueueInv(Accept(s, job))
  {
    var r := Accept(s, job);
    assert r.queue[|s.queue|].ticket == |s.jobs|;
    forall t | 0 <= t < |s.jobs| ensures Among(s.queue, t) <==> Among(r.queue, t) {
      if Among(s.queue, t) {
        var j: nat :| j < |s.queue| && s.queue[j].ticket == t;
        assert r.queue[j].ticket == t;
      }
      if Among(r.queue, t) {
        var j: nat :| j < |r.queue| && r.queue[j].ticket == t;
        assert s.queue[j].ticket == t;
      }
    }
  }

  // The slots are as they were, and the fates of their jobs too.
  lemma SlotsStay<R>(s: State<R>, r: State<R>)
    requires SlotInv(s) && Tickets(r) && r.slots == s.slots && s.jobs <= r.jobs && r.posted == s.posted
    requires forall t :: 0 <= t < |s.jobs| && s.fates[t].Running? ==> r.fates[t] == s.fates[t]
    requires forall t :: 0 <= t < |r.jobs| && r.fates[t].Running? ==> t < |s.jobs| && s.fates[t].Running?
    ensures SlotInv(r)
  {
    forall t | 0 <= t < |r.jobs| && r.fates[t].Running?
      ensures exists j: nat :: InSlot(r, j, t) && r.slots[j].worker == r.fates[t].worker
    {
      var j: nat :| InSlot(s, j, t) && s.slots[j].worker == s.fates[t].worker;
      assert InSlot(r, j, t);
    }
  }

  lemma AcceptIds<R>(s: State<R>, job: Job)
    requires IdInv(s) && job.id !in s.inFlight
    ensures IdInv(Accept(s, job))
  {
  }

  lemma AcceptKeeps<R>(s: State<R>, job: Job)
    requires Core(s) && !s.terminated && job.id !in s.inFlight
    ensures Core(Accept(s, job))
  {
    AcceptQueue(s, job);
    SlotsStay(s, Accept(s, job));
    AcceptIds(s, job);
  }

  lemma ReadyKeeps<R>(s: State<R>, i: nat)
    requires Core(s) && i < |s.slots|
    ensures Core(s.(slots := s.slots[i := s.slots[i].(ready := true)]))
  {
    var r := s.(slots := s.slots[i := s.slots[i].(ready := true)]);
    forall t | 0 <= t < |r.jobs| && r.fates[t].Running?
      ensures exists j: nat :: InSlot(r, j, t) && r.slots[j].worker == r.fates[t].worker
    {
      var j: nat :| InSlot(s, j, t) && s.slots[j].worker == s.fates[t].worker;
      assert InSlot(r, j, t);
    }
  }

  lemma EmptySlots<R>(s: State<R>, i: nat, outcome: Outcome<R>)
    requires SlotInv(s) && i < |s.slots| && s.slots[i].current.Some?
    ensures SlotInv(Settle(s.(slots := s.slots[i := s.slots[i].(current := None)]), s.slots[i].current.value, outcome))
  {
    var r := Settle(s.(slots := s.slots[i := s.slots[i].(current := None)]), s.slots[i].current.value, outcome);
    forall t | 0 <= t < |r.jobs| && r.fates[t].Running?
      ensures exists j: nat :: InSlot(r, j, t) && r.slots[j].worker == r.fates[t].worker
    {
      var j: nat :| InSlot(s, j, t) && s.slots[j].worker == s.fates[t].worker;
      assert InSlot(r, j, t);
    }
  }

  lemma WithoutIs(slots: seq<Slot>, i: nat)
    requires i < |slots|
    ensures |Without(slots, i)| == |slots| - 1
    ensures forall j :: 0 <= j < |slots| - 1 ==> Without(slots, i)[j] == slots[if j < i then j else j + 1]
  {
  }

  lemma GoneSlots<R>(s: State<R>, i: nat, outcome: Outcome<R>)
    requires SlotInv(s) && i < |s.slots| && s.slots[i].current.Some?
    ensures SlotInv(Settle(s.(slots := Without(s.slots, i)), s.slots[i].current.value, outcome))
  {
    var r := Settle(s.(slots := Without(s.slots, i)), s.slots[i].current.value, outcome);
    WithoutIs(s.slots, i);
    hide Without;
    forall t | 0 <= t < |r.jobs| && r.fates[t].Running?
      ensures exists j: nat :: InSlot(r, j, t) && r.slots[j].worker == r.fates[t].worker
    {
      var j: nat :| InSlot(s, j, t) && s.slots[j].worker == s.fates[t].worker;
      assert InSlot(r, if j > i then j - 1 else j, t);
    }
  }

  lemma SettleQueue<R>(s: State<R>, r: State<R>, p: Pending, outcome: Outcome<R>)
    requires QueueInv(s) && p.ticket < |s.jobs| && s.fates[p.ticket].Running? && Tickets(r)
    requires r == s.(slots := r.slots, fates := s.fates[p.ticket := Settled(outcome)], settling := r.settling)
    ensures QueueInv(r)
  {
  }

  lemma SettleIds<R>(s: State<R>, r: State<R>, p: Pending, outcome: Outcome<R>)
    requires IdInv(s) && p.ticket < |s.jobs| && !s.fates[p.ticket].Settled? && s.jobs[p.ticket] == p.job
    requires r == Settle(s.(slots := r.slots), p, outcome)
    ensures IdInv(r)
  {
  }

  /** Taking the job out of slot `i` and settling it keeps the invariant, whether the slot stays
      (`slots` with the slot empty) or goes with its worker (`slots` without it). */
  lemma VacateKeeps<R>(s: State<R>, i: nat, slots: seq<Slot>, outcome: Outcome<R>)
    requires Core(s) && i < |s.slots| && s.slots[i].current.Some?
    requires slots == s.slots[i := s.slots[i].(current := None)] || slots == Without(s.slots, i)
    requires outcome.Resolved? ==>
               outcome.id == s.slots[i].current.value.job.id && outcome.worker == s.slots[i].worker
    ensures Core(Settle(s.(slots := slots), s.slots[i].current.value, outcome))
  {
    hide Busy;
    var p := s.slots[i].current.value;
    var r := Settle(s.(slots := slots), p, outcome);
    if slots == Without(s.slots, i) {
      GoneSlots(s, i, outcome);
    } else {
      EmptySlots(s, i, outcome);
    }
    SettleQueue(s, r, p, outcome);
    SettleIds(s, r, p, outcome);
  }

  lemma OthersHold<R>(s: State<R>, r: State<R>, i: nat, t: nat)
    requires i < |s.slots| && r.slots == Without(s.slots, i) && !InSlot(s, i, t)
    requires t < |s.fates| && s.fates[t].Running? && t < |r.fates| && r.fates[t] == s.fates[t]
    requires exists j: nat :: InSlot(s, j, t) && s.slots[j].worker == s.fates[t].worker
    ensures exists j: nat :: InSlot(r, j, t) && r.slots[j].worker == r.fates[t].worker
  {
    WithoutIs(s.slots, i);
    hide Without;
    var j: nat :| InSlot(s, j, t) && s.slots[j].worker == s.fates[t].worker;
    assert InSlot(r, if j > i then j - 1 else j, t);
  }

  // An idle worker is gone.
  lemma IdleGone<R>(s: State<R>, i: nat)
    requires SlotInv(s) && i < |s.slots| && s.slots[i].current.None?
    ensures SlotInv(s.(slots := Without(s.slots, i)))
  {
    var r := s.(slots := Without(s.slots, i));
    WithoutIs(s.slots, i);
    hide Without, InSlot;
    forall t | 0 <= t < |r.jobs| && r.fates[t].Running?
      ensures exists j: nat :: InSlot(r, j, t) && r.slots[j].worker == r.fates[t].worker
    {
      NotInIdle(s, i, t);
      OthersHold(s, r, i, t);
    }
  }

  lemma NotInIdle<R>(s: State<R>, i: nat, t: nat)
    requires i < |s.slots| && s.slots[i].current.None?
    ensures !InSlot(s, i, t)
  {
  }

  lemma ReleaseKeeps<R>(s: State<R>, i: nat)
    requires Core(s) && i < |s.slots|
    ensures Core(Release(s, i))
    ensures Busy(s, |s.slots|) ==> Busy(Release(s, i), |s.slots| - 1)
  {
    if s.slots[i].current.Some? {
      VacateKeeps(s, i, Without(s.slots, i), Rejected);
    } else {
      IdleGone(s, i);
    }
  }

  lemma TakenKeeps<R>(s: State<R>, i: nat, id: string, result: R)
    requires Core(s) && i < |s.slots|
    ensures Core(Taken(s, i, id, result))
  {
    var slot := s.slots[i];
    if slot.current.Some? && slot.current.value.job.id == id {
      VacateKeeps(s, i, s.slots[i := slot.(current := None)], Resolved(slot.worker, id, result));
    }
  }

  lemma {:induction false} ReleaseAllKeeps<R>(s: State<R>)
    requires Core(s)
    ensures Core(ReleaseAll(s))
    decreases |s.slots|
  {
    if s.slots != [] {
      ReleaseKeeps(s, 0);
      ReleaseAllKeeps(Release(s, 0));
    }
  }

  // What settling a list does: its tickets are settled, their ids are settling, nothing else moves.
  lemma {:induction false} SettleAllEffect<R>(s: State<R>, ps: seq<Pending>, outcome: Outcome<R>)
    requires forall i :: 0 <= i < |ps| ==> ps[i].ticket < |s.fates|
    ensures var r := SettleAll(s, ps, outcome);
      && r == s.(fates := r.fates, settling := r.settling)
      && (forall t :: 0 <= t < |s.fates| ==>
            r.fates[t] == if Among(ps, t) then Settled(outcome) else s.fates[t])
      && (forall id :: id in r.settling <==>
            id in s.settling || exists j :: 0 <= j < |ps| && ps[j].job.id == id)
    decreases |ps|
  {
    if ps != [] {
      var next := Settle(s, ps[0], outcome);
      SettleAllEffect(next, ps[1..], outcome);
      var r := SettleAll(s, ps, outcome);
      forall t | 0 <= t < |s.fates|
        ensures r.fates[t] == if Among(ps, t) then Settled(outcome) else s.fates[t]
      {
        if Among(ps, t) && ps[0].ticket != t {
          var j: nat :| j < |ps| && ps[j].ticket == t;
          assert ps[1..][j - 1].ticket == t;
        }
        if Among(ps[1..], t) {
          var j: nat :| j < |ps[1..]| && ps[1..][j].ticket == t;
          assert ps[j + 1].ticket == t;
        }
      }
      forall id
        ensures id in r.settling <==> id in s.settling || exists j :: 0 <= j < |ps| && ps[j].job.id == id
      {
        if j :| 0 <= j < |ps| && ps[j].job.id == id {
          assert j == 0 || ps[1..][j - 1].job.id == id;
        }
        if j :| 0 <= j < |ps[1..]| && ps[1..][j].job.id == id {
          assert ps[j + 1].job.id == id;
        }
      }
    }
  }

  lemma FlushIds<R>(s: State<R>)
    requires QueueInv(s) && IdInv(s)
    ensures IdInv(Flush(s))
  {
    SettleAllEffect(s.(queue := []), s.queue, Rejected);
    var r := Flush(s);
    forall id | id in r.settling && id !in s.settling
      ensures id in r.inFlight && r.fates[r.inFlight[id]].Settled?
    {
      var j :| 0 <= j < |s.queue| && s.queue[j].job.id == id;
      assert Among(s.queue, s.queue[j].ticket);
    }
    forall id | id in r.inFlight && r.fates[r.inFlight[id]].Settled? ensures id in r.settling {
      var t := s.inFlight[id];
      if Among(s.queue, t) {
        var j: nat :| j < |s.queue| && s.queue[j].ticket == t;
        assert s.queue[j].job.id == id;
      }
    }
  }

  lemma FlushKeeps<R>(s: State<R>)
    requires Core(s)
    ensures Core(Flush(s)) && Busy(Flush(s), |s.slots|)
  {
    hide SettleAll;
    SettleAllEffect(s.(queue := []), s.queue, Rejected);
    FlushIds(s);
    SlotsStay(s, Flush(s));
  }

  lemma ForgetIds<R>(s: State<R>, id: string)
    requires IdInv(s)
    ensures IdInv(Forget(s, id))
  {
  }

  lemma ForgetKeeps<R>(s: State<R>, id: string)
    requires Inv(s)
    ensures Inv(Forget(s, id))
  {
    hide SlotInv, IdInv;
    SlotsStay(s, Forget(s, id));
    ForgetIds(s, id);
  }

  /** Everything that can happen to a pool: calls of its two functions, messages and errors of its
      workers, and the microtask behind a settled promise. */
  datatype Event<R> =
    | Decrypt(job: Job)
    | IsReady(worker: nat)
    | Answer(worker: nat, id: string, result: R)
    | Died(worker: nat)
    | Terminate
    | Microtask(id: string)

  ghost predicate Live<R>(s: State<R>, worker: nat) {
    exists i: nat :: i < |s.slots| && s.slots[i].worker == worker
  }

  ghost function SlotOf<R>(s: State<R>, worker: nat): (i: nat)
    requires Live(s, worker)
    ensures i < |s.slots| && s.slots[i].worker == worker
  {
    var i: nat :| i < |s.slots| && s.slots[i].worker == worker;
    i
  }

  // A terminated worker sends nothing, so its events change nothing.
  ghost function Step<R>(s: State<R>, e: Event<R>): (r: State<R>)
    requires Tickets(s)
    ensures Tickets(r)
  {
    match e
    case Decrypt(job) => Submit(s, job).0
    case IsReady(w) => if Live(s, w) then Ready(s, SlotOf(s, w)) else s
    case Answer(w, id, result) => if Live(s, w) then Answered(s, SlotOf(s, w), id, result) else s
    case Died(w) => if Live(s, w) then Drop(s, SlotOf(s, w)) else s
    case Terminate => Shut(s)
    case Microtask(id) => Forget(s, id)
  }

  lemma SubmitKeeps<R>(s: State<R>, job: Job)
    requires Inv(s)
    ensures Inv(Submit(s, job).0)
  {
    if !s.terminated && job.id !in s.inFlight {
      AcceptKeeps(s, job);
      PumpKeeps(Accept(s, job), 0);
    }
  }

  lemma DropKeeps<R>(s: State<R>, i: nat)
    requires Inv(s) && i < |s.slots|
    ensures Inv(Drop(s, i))
  {
    ReleaseKeeps(s, i);
    FlushKeeps(Release(s, i));
  }

  lemma ShutKeeps<R>(s: State<R>)
    requires Core(s)
    ensures Inv(Shut(s))
  {
    ReleaseAllKeeps(s);
    FlushKeeps(ReleaseAll(s));
    MarkKeeps(Flush(ReleaseAll(s)));
  }

  lemma MarkKeeps<R>(s: State<R>)
    requires Core(s) && s.slots == [] && s.queue == []
    ensures Inv(s.(terminated := true))
  {
    SlotsStay(s, s.(terminated := true));
  }

  /** Whatever happens next, the invariant holds. */
  lemma StepKeeps<R>(s: State<R>, e: Event<R>)
    requires Inv(s)
    ensures Inv(Step(s, e))
  {
    hide SlotInv, PostInv, SettledInv, IdInv;
    match e
    case Decrypt(job) => SubmitKeeps(s, job);
    case IsReady(w) =>
      if Live(s, w) {
        var i := SlotOf(s, w);
        ReadyKeeps(s, i);
        PumpKeeps(s.(slots := s.slots[i := s.slots[i].(ready := true)]), 0);
      }
    case Answer(w, id, result) =>
      if Live(s, w) {
        var i := SlotOf(s, w);
        TakenKeeps(s, i, id, result);
        PumpKeeps(Taken(s, i, id, result), 0);
      }
    case Died(w) => if Live(s, w) { DropKeeps(s, SlotOf(s, w)); }
    case Terminate => ShutKeeps(s);
    case Microtask(id) => ForgetKeeps(s, id);
  }

  ghost function Run<R>(s: State<R>, events: seq<Event<R>>): (r: State<R>)
    requires Tickets(s)
    ensures Tickets(r)
    decreases |events|
  {
    if events == [] then s else Step(Run(s, events[..|events| - 1]), events[|events| - 1])
  }

  lemma {:induction false} RunKeeps<R>(s: State<R>, events: seq<Event<R>>)
    requires Inv(s)
    ensures Inv(Run(s, events))
    decreases |events|
  {
    if events != [] {
      RunKeeps(s, events[..|events| - 1]);
      StepKeeps(Run(s, events[..|events| - 1]), events[|events| - 1]);
    }
  }

  ghost predicate HeldOnce<R>(s: State<R>, t: nat) {
    && (exists i: nat :: InSlot(s, i, t))
    && (forall i: nat, j: nat :: InSlot(s, i, t) && InSlot(s, j, t) ==> i == j)
  }

  ghost predicate Held<R>(s: State<R>, t: nat) {
    exists i: nat :: InSlot(s, i, t)
  }

  /** Where the invariant puts a job: waiting, at one live worker, or settled, and never two of
      these; tickets are posted in the order of acceptance and none is overtaken. */
  lemma Places<R>(s: State<R>, t: nat)
    requires Inv(s) && t < |s.jobs|
    ensures s.fates[t].Queued? <==> Among(s.queue, t)
    ensures s.fates[t].Running? <==> Held(s, t)
    ensures Held(s, t) ==> HeldOnce(s, t)
    ensures Among(s.queue, t) ==> forall k :: 0 <= k < |s.posted| ==> s.posted[k].ticket < t
  {
    forall i: nat, j: nat | InSlot(s, i, t) && InSlot(s, j, t) ensures i == j {
    }
    if Among(s.queue, t) {
      var j: nat :| j < |s.queue| && s.queue[j].ticket == t;
    }
  }

  /** The pool over any run from its creation, whatever the order of calls, messages, deaths and
      termination. */
  lemma Reachable<R>(size: nat, events: seq<Event<R>>)
    ensures Inv(Init<R>(size))
    ensures var s := Run(Init<R>(size), events);
      && (forall t :: 0 <= t < |s.jobs| ==>
            && (s.fates[t].Queued? <==> Among(s.queue, t))
            && (s.fates[t].Running? <==> Held(s, t))
            && (Held(s, t) ==> HeldOnce(s, t)))
      && (forall t, u :: 0 <= t < u < |s.jobs| && !s.fates[t].Settled? && !s.fates[u].Settled? ==>
            s.jobs[t].id != s.jobs[u].id)
      && (forall i, j :: 0 <= i < j < |s.posted| ==> s.posted[i].ticket < s.posted[j].ticket)
      && (forall t, k :: 0 <= k < |s.posted| && Among(s.queue, t) ==> s.posted[k].ticket < t)
      && (s.queue != [] ==> forall i :: 0 <= i < |s.slots| && s.slots[i].ready ==> s.slots[i].current.Some?)
  {
    InitInv<R>(size);
    RunKeeps(Init<R>(size), events);
    var s := Run(Init<R>(size), events);
    forall t | 0 <= t < |s.jobs|
      ensures s.fates[t].Queued? <==> Among(s.queue, t)
      ensures s.fates[t].Running? <==> Held(s, t)
      ensures Held(s, t) ==> HeldOnce(s, t)
    {
      Places(s, t);
    }
    forall t, k | 0 <= k < |s.posted| && Among(s.queue, t) ensures s.posted[k].ticket < t {
      var j: nat :| j < |s.queue| && s.queue[j].ticket == t;
    }
  }

  // How a fate may move on: a settled one never does.
  predicate Later<R(==)>(a: Fate<R>, b: Fate<R>) {
    a == b || a.Queued? || (a.Running? && b.Settled?)
  }

  /** `r` can follow `s`: jobs and posts are only added, fates move on, no worker comes back. */
  ghost predicate Follows<R>(s: State<R>, r: State<R>) {
    && Tickets(s) && Tickets(r)
    && s.jobs <= r.jobs && s.posted <= r.posted && (s.terminated ==> r.terminated)
    && (forall t :: 0 <= t < |s.jobs| ==> Later(s.fates[t], r.fates[t]))
    && (forall w :: Live(r, w) ==> Live(s, w))
  }

  // One assignment settles nothing and keeps the workers.
  ghost predicate OnlyPosts<R>(s: State<R>, r: State<R>) {
    && r.jobs == s.jobs && |r.fates| == |s.fates| && s.posted <= r.posted
    && r == s.(queue := r.queue, slots := r.slots, fates := r.fates, posted := r.posted)
    && |r.slots| == |s.slots|
    && (forall i :: 0 <= i < |s.slots| ==>
          r.slots[i].worker == s.slots[i].worker && r.slots[i].ready == s.slots[i].ready)
    && (forall t :: 0 <= t < |s.fates| ==>
          r.fates[t] == s.fates[t] || (s.fates[t].Queued? && r.fates[t].Running?))
  }

  lemma {:induction false} PumpOnlyPosts<R>(s: State<R>, i: nat)
    requires Core(s) && i <= |s.slots|
    ensures OnlyPosts(s, PumpFrom(s, i))
    decreases |s.slots| - i
  {
    hide SlotInv, PostInv, SettledInv, IdInv;
    if i == |s.slots| || (s.slots[i].ready && s.slots[i].current.None? && s.queue == []) {
    } else if !s.slots[i].ready || s.slots[i].current.Some? {
      PumpOnlyPosts(s, i + 1);
    } else {
      AssignQueue(s, i);
      AssignSlots(s, i);
      assert Among(s.queue, s.queue[0].ticket);
      PumpOnlyPosts(Assign(s, i), i + 1);
    }
  }

  lemma PumpFollows<R>(s: State<R>, r: State<R>)
    requires Tickets(s) && Tickets(r) && OnlyPosts(s, r)
    ensures Follows(s, r)
  {
    forall w | Live(r, w) ensures Live(s, w) {
      var i: nat :| i < |r.slots| && r.slots[i].worker == w;
      assert s.slots[i].worker == w;
    }
  }

  lemma FollowsTrans<R>(a: State<R>, b: State<R>, c: State<R>)
    requires Follows(a, b) && Follows(b, c)
    ensures Follows(a, c)
  {
    forall t | 0 <= t < |a.jobs| ensures Later(a.fates[t], c.fates[t]) {
      assert Later(a.fates[t], b.fates[t]) && Later(b.fates[t], c.fates[t]);
    }
  }

  lemma ReleaseFollows<R>(s: State<R>, i: nat)
    requires Core(s) && i < |s.slots|
    ensures Follows(s, Release(s, i))
    ensures var r := Release(s, i);
      && r.queue == s.queue && r.terminated == s.terminated && r.jobs == s.jobs
      && (forall t :: 0 <= t < |s.jobs| ==>
            r.fates[t] == if InSlot(s, i, t) then Settled(Rejected) else s.fates[t])
  {
    hide PostInv, SettledInv, IdInv, Increasing;
    var r := Release(s, i);
    WithoutIs(s.slots, i);
    hide Without;
    forall w | Live(r, w) ensures Live(s, w) {
      var j: nat :| j < |r.slots| && r.slots[j].worker == w;
      assert s.slots[if j < i then j else j + 1].worker == w;
    }
  }

  lemma {:induction false} ReleaseAllFollows<R>(s: State<R>)
    requires Core(s)
    ensures Follows(s, ReleaseAll(s))
    ensures var r := ReleaseAll(s);
      && r.queue == s.queue && r.terminated == s.terminated && r.jobs == s.jobs
      && (forall t :: 0 <= t < |s.jobs| ==>
            r.fates[t] == if s.fates[t].Running? then Settled(Rejected) else s.fates[t])
    decreases |s.slots|
  {
    if s.slots != [] {
      var n := Release(s, 0);
      ReleaseKeeps(s, 0);
      ReleaseFollows(s, 0);
      ReleaseAllFollows(n);
      FollowsTrans(s, n, ReleaseAll(n));
    }
  }

  lemma FlushFollows<R>(s: State<R>)
    requires Core(s)
    ensures Follows(s, Flush(s))
    ensures var r := Flush(s);
      && r.slots == s.slots && r.terminated == s.terminated && r.jobs == s.jobs && r.queue == []
      && (forall t :: 0 <= t < |s.jobs| ==>
            r.fates[t] == if s.fates[t].Queued? then Settled(Rejected) else s.fates[t])
  {
    SettleAllEffect(s.(queue := []), s.queue, Rejected);
  }

  // The job the pool is told the answer of, if the answer is for the job its worker holds.
  ghost predicate Answers<R>(s: State<R>, e: Event<R>, t: nat) {
    e.Answer? && Live(s, e.worker) && InSlot(s, SlotOf(s, e.worker), t) && t < |s.jobs| && s.jobs[t].id == e.id
  }

  /** What one event does to one job that was already accepted. Only an answer of the worker that
      holds the job resolves it, with what that worker said. */
  ghost predicate Moves<R>(s: State<R>, e: Event<R>, r: State<R>, t: nat)
    requires t < |s.fates| && t < |r.fates|
  {
    match e
    case Decrypt(_) => r.fates[t] == s.fates[t] || (s.fates[t].Queued? && r.fates[t].Running?)
    case IsReady(_) => r.fates[t] == s.fates[t] || (s.fates[t].Queued? && r.fates[t].Running?)
    case Answer(w, id, result) =>
      if Answers(s, e, t) then r.fates[t] == Settled(Resolved(w, id, result))
      else r.fates[t] == s.fates[t] || (s.fates[t].Queued? && r.fates[t].Running?)
    case Died(w) =>
      r.fates[t] ==
        if Live(s, w) && (InSlot(s, SlotOf(s, w), t) || (|s.slots| == 1 && s.fates[t].Queued?))
        then Settled(Rejected) else s.fates[t]
    case Terminate => r.fates[t] == if s.fates[t].Settled? then s.fates[t] else Settled(Rejected)
    case Microtask(_) => r.fates[t] == s.fates[t]
  }

  ghost predicate Effect<R>(s: State<R>, e: Event<R>, r: State<R>) {
    && Follows(s, r)
    && (r.jobs == s.jobs || (e.Decrypt? && r.jobs == s.jobs + [e.job] && !r.fates[|s.jobs|].Settled?))
    && (forall t :: 0 <= t < |s.jobs| ==> Moves(s, e, r, t))
    && (r.terminated <==> s.terminated || e.Terminate?)
    && (r.terminated ==> r.slots == [])
  }

  lemma DecryptEffect<R>(s: State<R>, job: Job)
    requires Inv(s)
    ensures Effect(s, Decrypt(job), Submit(s, job).0)
  {
    if !s.terminated && job.id !in s.inFlight {
      AcceptKeeps(s, job);
      var a := Accept(s, job);
      assert Follows(s, a) by {
        forall w | Live(a, w) ensures Live(s, w) {
        }
      }
      PumpOnlyPosts(a, 0);
      PumpFollows(a, Pump(a));
      FollowsTrans(s, a, Pump(a));
    }
  }

  lemma IsReadyEffect<R>(s: State<R>, w: nat)
    requires Inv(s) && Live(s, w)
    ensures Effect(s, IsReady(w), Ready(s, SlotOf(s, w)))
  {
    var i := SlotOf(s, w);
    var a := s.(slots := s.slots[i := s.slots[i].(ready := true)]);
    ReadyKeeps(s, i);
    PumpOnlyPosts(a, 0);
    var r := Pump(a);
    PumpFollows(a, r);
    assert Follows(s, a) by {
      forall v | Live(a, v) ensures Live(s, v) {
        var j: nat :| j < |a.slots| && a.slots[j].worker == v;
        assert s.slots[j].worker == v;
      }
    }
    FollowsTrans(s, a, r);
  }

  lemma TakenFollows<R>(s: State<R>, i: nat, id: string, result: R)
    requires Core(s) && i < |s.slots|
    ensures var a := Taken(s, i, id, result);
      && Follows(s, a) && |a.slots| == |s.slots| && a.terminated == s.terminated && a.jobs == s.jobs
      && (forall t :: 0 <= t < |s.jobs| ==>
            a.fates[t] ==
              if InSlot(s, i, t) && s.jobs[t].id == id then Settled(Resolved(s.slots[i].worker, id, result))
              else s.fates[t])
  {
    var a := Taken(s, i, id, result);
    forall w | Live(a, w) ensures Live(s, w) {
      var j: nat :| j < |a.slots| && a.slots[j].worker == w;
      assert s.slots[j].worker == w;
    }
  }

  lemma AnswerMoves<R>(s: State<R>, e: Event<R>, a: State<R>, r: State<R>, t: nat)
    requires e.Answer? && Live(s, e.worker) && t < |s.jobs| && |s.fates| == |s.jobs| == |a.fates|
    requires OnlyPosts(a, r)
    requires a.fates[t] ==
             if InSlot(s, SlotOf(s, e.worker), t) && s.jobs[t].id == e.id
             then Settled(Resolved(e.worker, e.id, e.result)) else s.fates[t]
    ensures Moves(s, e, r, t)
  {
  }

  lemma AnswerEffect<R>(s: State<R>, w: nat, id: string, result: R)
    requires Inv(s) && Live(s, w)
    ensures Effect(s, Answer(w, id, result), Answered(s, SlotOf(s, w), id, result))
  {
    var i := SlotOf(s, w);
    var a := Taken(s, i, id, result);
    TakenFollows(s, i, id, result);
    TakenKeeps(s, i, id, result);
    PumpOnlyPosts(a, 0);
    var r := Pump(a);
    PumpFollows(a, r);
    FollowsTrans(s, a, r);
    forall t | 0 <= t < |s.jobs| ensures Moves(s, Answer(w, id, result), r, t) {
      AnswerMoves(s, Answer(w, id, result), a, r, t);
    }
  }

  lemma LastDiedEffect<R>(s: State<R>, w: nat)
    requires Inv(s) && Live(s, w) && |s.slots| == 1
    ensures Effect(s, Died(w), Drop(s, SlotOf(s, w)))
  {
    var i := SlotOf(s, w);
    var a := Release(s, i);
    ReleaseKeeps(s, i);
    ReleaseFollows(s, i);
    FlushFollows(a);
    var r := Flush(a);
    FollowsTrans(s, a, r);
    forall t | 0 <= t < |s.jobs| ensures Moves(s, Died(w), r, t) {
    }
  }

  lemma DiedEffect<R>(s: State<R>, w: nat)
    requires Inv(s) && Live(s, w)
    ensures Effect(s, Died(w), Drop(s, SlotOf(s, w)))
  {
    if |s.slots| == 1 {
      LastDiedEffect(s, w);
    } else {
      ReleaseFollows(s, SlotOf(s, w));
    }
  }

  lemma TerminateFollows<R>(s: State<R>, r: State<R>)
    requires Tickets(r) && Follows(s, r)
    ensures Follows(s, r.(terminated := true))
  {
    forall w | Live(r.(terminated := true), w) ensures Live(s, w) {
      assert Live(r, w);
    }
  }

  lemma ShutFates<R>(s: State<R>)
    requires Core(s)
    ensures Follows(s, Flush(ReleaseAll(s)))
    ensures var r := Shut(s);
      && r.jobs == s.jobs && r.slots == []
      && (forall t :: 0 <= t < |s.jobs| ==>
            r.fates[t] == if s.fates[t].Settled? then s.fates[t] else Settled(Rejected))
  {
    var a := ReleaseAll(s);
    ReleaseAllKeeps(s);
    ReleaseAllFollows(s);
    FlushFollows(a);
    FollowsTrans(s, a, Flush(a));
  }

  lemma TerminateEffect<R>(s: State<R>)
    requires Inv(s)
    ensures Effect(s, Terminate, Shut(s))
  {
    ShutFates(s);
    TerminateFollows(s, Flush(ReleaseAll(s)));
  }

  /** Every event does to the pool and to each of its jobs what `Effect` says. */
  lemma StepEffect<R>(s: State<R>, e: Event<R>)
    requires Inv(s)
    ensures Effect(s, e, Step(s, e))
  {
    match e
    case Decrypt(job) => DecryptEffect(s, job);
    case IsReady(w) => if Live(s, w) { IsReadyEffect(s, w); }
    case Answer(w, id, result) => if Live(s, w) { AnswerEffect(s, w, id, result); }
    case Died(w) => if Live(s, w) { DiedEffect(s, w); }
    case Terminate => TerminateEffect(s);
    case Microtask(id) =>
  }

  // A run follows its start: no settled fate ever changes, and no post is taken back.
  lemma {:induction false} RunFollows<R>(s: State<R>, events: seq<Event<R>>)
    requires Inv(s)
    ensures Follows(s, Run(s, events))
    decreases |events|
  {
    if events != [] {
      var before := Run(s, events[..|events| - 1]);
      RunKeeps(s, events[..|events| - 1]);
      RunFollows(s, events[..|events| - 1]);
      StepEffect(before, events[|events| - 1]);
      FollowsTrans(s, before, Run(s, events));
    }
  }

  // The answer at `k` is the one that resolved job `t`.
  ghost predicate ResolvedAt<R>(s: State<R>, events: seq<Event<R>>, k: nat, t: nat, outcome: Outcome<R>)
    requires Tickets(s)
  {
    && k < |events| && outcome.Resolved?
    && events[k] == Answer(outcome.worker, outcome.id, outcome.result)
    && var before := Run(s, events[..k]);
       && t < |before.jobs| && before.jobs[t].id == outcome.id && before.fates[t] == Running(outcome.worker)
  }

  lemma ResolvedNow<R>(s: State<R>, e: Event<R>, r: State<R>, t: nat)
    requires Inv(s) && Effect(s, e, r) && t < |r.jobs| && (t < |s.jobs| ==> !s.fates[t].Settled?)
    requires r.fates[t].Settled? && r.fates[t].outcome.Resolved?
    ensures var o := r.fates[t].outcome;
      && e == Answer(o.worker, o.id, o.result)
      && t < |s.jobs| && s.jobs[t].id == o.id && s.fates[t] == Running(o.worker)
  {
    assert t < |s.jobs|;
    assert Moves(s, e, r, t);
  }

  /** Every resolved promise, in any run: some answer for that very id came from the worker that
      held the job at that moment, and its content is what the promise got. */
  lemma {:induction false} ResolvedByItsWorker<R>(s: State<R>, events: seq<Event<R>>, t: nat)
    requires Inv(s) && t < |Run(s, events).jobs| && (t < |s.jobs| ==> !s.fates[t].Settled?)
    requires Run(s, events).fates[t].Settled? && Run(s, events).fates[t].outcome.Resolved?
    ensures exists k: nat :: ResolvedAt(s, events, k, t, Run(s, events).fates[t].outcome)
    decreases |events|
  {
    hide Step, SlotInv, PostInv, SettledInv, IdInv;
    if events != [] {
      var n := |events| - 1;
      var early := events[..n];
      var before := Run(s, early);
      var r := Run(s, events);
      RunKeeps(s, early);
      StepEffect(before, events[n]);
      if t < |before.jobs| && before.fates[t].Settled? {
        ResolvedByItsWorker(s, early, t);
        var k: nat :| ResolvedAt(s, early, k, t, before.fates[t].outcome);
        assert events[..k] == early[..k];
        assert ResolvedAt(s, events, k, t, r.fates[t].outcome);
      } else {
        ResolvedNow(before, events[n], r, t);
        assert ResolvedAt(s, events, n, t, r.fates[t].outcome);
      }
    }
  }

  /** What the caller of `decrypt` is told. A job whose id is still outstanding is not accepted a
      second time: the caller shares the promise of the first. */
  lemma SubmitReply<R>(s: State<R>, job: Job)
    requires Inv(s)
    ensures var (r, reply) := Submit(s, job);
      && (reply.Refused? <==> s.terminated)
      && (reply.Promise? ==> reply.ticket < |r.jobs| && r.jobs[reply.ticket].id == job.id)
      && (forall t :: 0 <= t < |s.jobs| && !s.fates[t].Settled? && s.jobs[t].id == job.id ==>
            r == s && reply == Promise(t))
  {
    if !s.terminated && job.id !in s.inFlight {
      AcceptKeeps(s, job);
      PumpOnlyPosts(Accept(s, job), 0);
    } else if !s.terminated {
      assert s.inFlight[job.id] < |s.jobs|;
    }
    forall t | 0 <= t < |s.jobs| && !s.fates[t].Settled? ensures !s.terminated {
      Places(s, t);
    }
  }

  lemma {:induction false} TerminatedIff<R>(s: State<R>, events: seq<Event<R>>)
    requires Inv(s)
    ensures Run(s, events).terminated <==> s.terminated || Terminate in events
    decreases |events|
  {
    hide SlotInv, PostInv, SettledInv, IdInv, Step, Follows, Moves;
    if events != [] {
      var early, last := events[..|events| - 1], events[|events| - 1];
      TerminatedIff(s, early);
      RunKeeps(s, early);
      StepEffect(Run(s, early), last);
      assert events == early + [last];
    }
  }

  /** Termination settles everything: once a run contains it, no accepted job is outstanding, and
      none is accepted any more. */
  lemma TerminatedIsSettled<R>(s: State<R>, events: seq<Event<R>>)
    requires Inv(s)
    ensures Run(s, events).terminated <==> s.terminated || Terminate in events
    ensures Run(s, events).terminated ==>
              forall t :: 0 <= t < |Run(s, events).jobs| ==> Run(s, events).fates[t].Settled?
  {
    hide Run;
    TerminatedIff(s, events);
    RunKeeps(s, events);
    var r := Run(s, events);
    forall t | 0 <= t < |r.jobs| && r.terminated ensures r.fates[t].Settled? {
      Places(r, t);
    }
  }

  /** With every worker gone nothing reaches a waiting job any more: it is settled by a run if and
      only if the run terminates the pool. */
  lemma {:induction false} Stranded<R>(s: State<R>, events: seq<Event<R>>, t: nat)
    requires Inv(s) && s.slots == [] && t < |s.jobs| && s.fates[t].Queued?
    ensures |s.jobs| <= |Run(s, events).jobs|
    ensures Run(s, events).fates[t].Settled? <==> Terminate in events
    ensures Terminate !in events ==> Run(s, events).slots == [] && Run(s, events).fates[t].Queued?
    decreases |events|
  {
    RunFollows(s, events);
    TerminatedIsSettled(s, events);
    if events != [] && Terminate !in events {
      var n := |events| - 1;
      assert events == events[..n] + [events[n]];
      Stranded(s, events[..n], t);
      RunKeeps(s, events[..n]);
      StrandedStep(Run(s, events[..n]), events[n], t);
    }
  }

  lemma StrandedStep<R>(s: State<R>, e: Event<R>, t: nat)
    requires Inv(s) && s.slots == [] && t < |s.jobs| && s.fates[t].Queued? && !e.Terminate?
    ensures var r := Step(s, e); r.slots == [] && t < |r.jobs| && r.fates[t].Queued?
  {
  }

  lemma OnlyWorkerDies<R>()
    ensures Step(Init<R>(1), Died(0)) == Init<R>(1).(slots := [])
  {
    var s := Init<R>(1);
    assert s.slots == [Slot(0, false, None)];
    assert Live(s, 0) by {
      assert s.slots[0].worker == 0;
    }
  }

  lemma NobodyTakes<R>(s: State<R>, job: Job)
    requires Tickets(s) && s.slots == [] && !s.terminated && job.id !in s.inFlight
    ensures Step(s, Decrypt(job)) == Accept(s, job)
  {
  }

  /** The input that gets there: the only worker dies, and a call comes after it. */
  lemma StrandedIsReached<R>(job: Job)
    ensures var s := Run<R>(Init(1), [Died(0), Decrypt(job)]);
      Inv(s) && s.slots == [] && s.jobs == [job] && s.fates == [Queued]
  {
    hide Run, Step, Inv;
    var first, died: seq<Event<R>> := Init<R>(1), [Died(0)];
    InitInv<R>(1);
    RunKeeps(first, [Died(0), Decrypt(job)]);
    RunNothing(first);
    RunLast(first, [], Died(0));
    RunLast(first, died, Decrypt(job));
    assert [] + died == died && died + [Decrypt(job)] == [Died(0), Decrypt(job)];
    OnlyWorkerDies<R>();
    NobodyTakes(first.(slots := []), job);
  }

  lemma RunNothing<R>(s: State<R>)
    requires Tickets(s)
    ensures Run(s, []) == s
  {
  }

  // Answers and readiness only: no worker dies and nobody terminates the pool.
  ghost predicate Honest<R>(events: seq<Event<R>>) {
    forall e :: e in events ==> e.IsReady? || e.Answer?
  }

  ghost function Outstanding<R>(s: State<R>): set<nat> {
    set t: nat | t < |s.fates| && !s.fates[t].Settled?
  }

  lemma RunLast<R>(s: State<R>, events: seq<Event<R>>, e: Event<R>)
    requires Tickets(s)
    ensures Run(s, events + [e]) == Step(Run(s, events), e)
  {
    var all := events + [e];
    assert all[..|all| - 1] == events && all[|all| - 1] == e;
  }

  lemma {:induction false} RunThen<R>(s: State<R>, e: Event<R>, events: seq<Event<R>>)
    requires Tickets(s)
    ensures Run(s, [e] + events) == Run(Step(s, e), events)
    decreases |events|
  {
    if events == [] {
      assert [e] + events == [] + [e];
      RunLast(s, [], e);
    } else {
      var early, last := events[..|events| - 1], events[|events| - 1];
      assert [e] + events == ([e] + early) + [last];
      RunLast(s, [e] + early, last);
      RunThen(s, e, early);
    }
  }

  ghost predicate Finished<R>(s: State<R>, events: seq<Event<R>>)
    requires Tickets(s)
  {
    Honest(events) && Outstanding(Run(s, events)) == {}
  }

  // A settled job leaves the outstanding ones, and answers add none.
  lemma AnswerShrinks<R>(s: State<R>, i: nat, answer: R)
    requires Inv(s) && i < |s.slots| && s.slots[i].current.Some?
    ensures var e := Answer(s.slots[i].worker, s.slots[i].current.value.job.id, answer);
      |Outstanding(Step(s, e))| < |Outstanding(s)| && |Step(s, e).slots| == |s.slots|
  {
    hide PumpFrom, PostInv, SettledInv, IdInv;
    var w, p := s.slots[i].worker, s.slots[i].current.value;
    var e := Answer(w, p.job.id, answer);
    assert Live(s, w) && SlotOf(s, w) == i;
    StepEffect(s, e);
    var r := Step(s, e);
    TakenKeeps(s, i, p.job.id, answer);
    PumpOnlyPosts(Taken(s, i, p.job.id, answer), 0);
    assert InSlot(s, i, p.ticket) && Answers(s, e, p.ticket) && Moves(s, e, r, p.ticket);
    assert p.ticket in Outstanding(s) && p.ticket !in Outstanding(r);
    forall t | t in Outstanding(r) ensures t in Outstanding(s) {
      assert Moves(s, e, r, t);
    }
    SubsetSize(Outstanding(r), Outstanding(s) - {p.ticket});
  }

  ghost predicate Holding<R>(s: State<R>) {
    exists i: nat :: i < |s.slots| && s.slots[i].current.Some?
  }

  lemma WakeStep<R>(s: State<R>)
    requires Inv(s) && s.slots != []
    ensures var a := s.(slots := s.slots[0 := s.slots[0].(ready := true)]);
      && Core(a) && Step(s, IsReady(s.slots[0].worker)) == Pump(a) && OnlyPosts(a, Pump(a)) && Inv(Pump(a))
  {
    hide PostInv, SettledInv, IdInv, QueueInv;
    var w := s.slots[0].worker;
    assert Live(s, w) && SlotOf(s, w) == 0;
    ReadyKeeps(s, 0);
    PumpOnlyPosts(s.(slots := s.slots[0 := s.slots[0].(ready := true)]), 0);
    StepKeeps(s, IsReady(w));
  }

  lemma WakeHolds<R>(s: State<R>, r: State<R>, t: nat)
    requires Inv(r) && OnlyPosts(s, r) && s.slots != [] && s.slots[0].ready
    requires t < |r.jobs| && !r.fates[t].Settled?
    ensures Holding(r)
  {
    Places(r, t);
    if r.fates[t].Running? {
      var i: nat :| InSlot(r, i, t);
      assert r.slots[i].current.Some?;
    } else {
      assert r.slots[0].current.Some?;
    }
  }

  ghost function Remaining<R>(s: State<R>): nat {
    2 * |Outstanding(s)| + if Holding(s) then 0 else 1
  }

  // The pool gets nearer to having nothing outstanding.
  ghost predicate Advances<R>(s: State<R>, e: Event<R>, r: State<R>) {
    && (e.IsReady? || e.Answer?) && r.slots != []
    && Remaining(r) < Remaining(s)
  }

  lemma WakeAdvances<R>(s: State<R>)
    requires Inv(s) && s.slots != [] && Outstanding(s) != {} && !Holding(s)
    ensures Advances(s, IsReady(s.slots[0].worker), Step(s, IsReady(s.slots[0].worker)))
  {
    WakeStep(s);
    var a := s.(slots := s.slots[0 := s.slots[0].(ready := true)]);
    var r := Pump(a);
    SameOutstanding(a, r);
    assert Outstanding(s) == Outstanding(a);
    var t :| t in Outstanding(r);
    WakeHolds(a, r, t);
  }

  lemma SameOutstanding<R>(a: State<R>, r: State<R>)
    requires OnlyPosts(a, r)
    ensures Outstanding(r) == Outstanding(a)
  {
  }

  lemma SomeAdvance<R>(s: State<R>, answer: R) returns (e: Event<R>)
    requires Inv(s) && s.slots != [] && Outstanding(s) != {}
    ensures Advances(s, e, Step(s, e))
  {
    if i: nat :| i < |s.slots| && s.slots[i].current.Some? {
      e := Answer(s.slots[i].worker, s.slots[i].current.value.job.id, answer);
      AnswerShrinks(s, i, answer);
    } else {
      e := IsReady(s.slots[0].worker);
      WakeAdvances(s);
    }
  }

  lemma FinishedThen<R>(s: State<R>, e: Event<R>, rest: seq<Event<R>>)
    requires Tickets(s) && (e.IsReady? || e.Answer?) && Finished(Step(s, e), rest)
    ensures Finished(s, [e] + rest)
  {
    RunThen(s, e, rest);
  }

  lemma FinishesThen<R>(s: State<R>, e: Event<R>, r: State<R>)
    requires Tickets(s) && r == Step(s, e) && (e.IsReady? || e.Answer?)
    requires exists rest :: Finished(r, rest)
    ensures exists events :: Finished(s, events)
  {
    var rest :| Finished(r, rest);
    FinishedThen(s, e, rest);
  }

  /** As long as one worker lives, the pool is never stuck: its workers can settle everything by
      getting ready and answering. */
  lemma {:induction false} Finishes<R>(s: State<R>, answer: R)
    requires Inv(s) && (s.slots != [] || Outstanding(s) == {})
    ensures exists events :: Finished(s, events)
    decreases Remaining(s)
  {
    if Outstanding(s) == {} {
      assert Finished(s, []);
    } else {
      var e := SomeAdvance(s, answer);
      StepKeeps(s, e);
      var r := Step(s, e);
      Finishes(r, answer);
      FinishesThen(s, e, r);
    }
  }

  // A run that settles job `t` although nobody terminates the pool.
  ghost predicate SettledWithout<R>(s: State<R>, events: seq<Event<R>>, t: nat)
    requires Tickets(s)
  {
    Terminate !in events && t < |Run(s, events).jobs| && Run(s, events).fates[t].Settled?
  }

  /** The exact condition for an outstanding job to be settled without terminating the pool, in
      every state the pool can be in: some worker is alive. */
  lemma SettlesIffAlive<R>(s: State<R>, t: nat, answer: R)
    requires Inv(s) && t < |s.jobs| && !s.fates[t].Settled?
    ensures (exists events :: SettledWithout(s, events, t)) <==> s.slots != []
  {
    if s.slots != [] {
      Finishes(s, answer);
      var events :| Finished(s, events);
      RunFollows(s, events);
      assert t !in Outstanding(Run(s, events));
      assert SettledWithout(s, events, t);
    } else {
      Places(s, t);
      forall events ensures !SettledWithout(s, events, t) {
        Stranded(s, events, t);
      }
    }
  }

  class WorkerSlot {
    const worker: nat
    var ready: bool
    var current: Option<Pending>

    constructor (worker: nat)
      ensures this.worker == worker && !ready && current == None
    {
      this.worker, ready, current := worker, false, None;
    }

    function View(): Slot
      reads this
    {
      Slot(worker, ready, current)
    }
  }

  function Views(slots: seq<WorkerSlot>): (views: seq<Slot>)
    reads slots
    ensures |views| == |slots| && forall i :: 0 <= i < |slots| ==> views[i] == slots[i].View()
  {
    seq(|slots|, i requires 0 <= i < |slots| reads slots => slots[i].View())
  }

  ghost predicate Distinct(slots: seq<WorkerSlot>) {
    forall i, j :: 0 <= i < j < |slots| ==> slots[i] != slots[j]
  }

  // slots.filter((s) => s !== slot)
  function Others(slots: seq<WorkerSlot>, slot: WorkerSlot): seq<WorkerSlot> {
    if slots == [] then []
    else (if slots[0] != slot then [slots[0]] else []) + Others(slots[1..], slot)
  }

  lemma {:induction false} OthersThan(slots: seq<WorkerSlot>, slot: WorkerSlot)
    requires slot !in slots
    ensures Others(slots, slot) == slots
    decreases |slots|
  {
    if slots != [] {
      OthersThan(slots[1..], slot);
    }
  }

  lemma {:induction false} OthersWithout(slots: seq<WorkerSlot>, i: nat)
    requires Distinct(slots) && i < |slots|
    ensures Others(slots, slots[i]) == slots[..i] + slots[i + 1..]
    decreases |slots|
  {
    if i == 0 {
      OthersThan(slots[1..], slots[0]);
    } else {
      OthersWithout(slots[1..], i - 1);
      assert slots[1..][..i - 1] == slots[1..i];
      assert slots[..i] == [slots[0]] + slots[1..i];
      assert slots[1..][i..] == slots[i + 1..];
    }
  }

  /** The pool as the program keeps it. `jobs`, `fates`, `posted` and `settling` stand for what the
      runtime holds: the promises handed out, the messages sent and the microtasks due. */
  class DecryptPool<R> {
    var queue: seq<Pending>
    var inFlight: map<string, nat>
    var slots: seq<WorkerSlot>
    var terminated: bool
    var jobs: seq<Job>
    var fates: seq<Fate<R>>
    var posted: seq<Post>
    var settling: set<string>

    ghost function View(): State<R>
      reads this, slots
    {
      State(queue, Views(slots), inFlight, terminated, jobs, fates, posted, settling)
    }

    ghost predicate Valid()
      reads this, slots
    {
      Distinct(slots) && Inv(View())
    }

    constructor (size: nat)
      ensures Valid() && fresh(slots) && View() == Init(size)
    {
      queue, inFlight, terminated, jobs, fates, posted, settling := [], map[], false, [], [], [], {};
      slots := [];
      new;
      var i := 0;
      while i < size
        invariant 0 <= i <= size && |slots| == i && fresh(slots) && Distinct(slots)
        invariant forall k :: 0 <= k < i ==> slots[k].View() == Slot(k, false, None)
        invariant View() == Init<R>(size).(slots := Views(slots))
      {
        var slot := new WorkerSlot(i);
        slots := slots + [slot];
        i := i + 1;
      }
      assert View() == Init(size);
      InitInv<R>(size);
    }

    // The head of the queue goes to slot `i`.
    method PostTo(slot: WorkerSlot, ghost i: nat)
      requires Distinct(slots) && Tickets(View()) && i < |slots| && slots[i] == slot && queue != []
      modifies this`queue, this`posted, this`fates, slot`current
      ensures View() == Assign(old(View()), i)
    {
      ghost var before := View();
      var next := queue[0];
      queue := queue[1..];
      slot.current := Some(next);
      posted := posted + [Post(slot.worker, next.ticket)];
      fates := fates[next.ticket := Running(slot.worker)];
      assert Views(slots) == before.slots[i := before.slots[i].(current := Some(next))];
    }

    method PumpSlots()
      requires Distinct(slots) && Tickets(View())
      modifies this, slots
      ensures slots == old(slots) && View() == Pump(old(View()))
    {
      var i := 0;
      while i < |slots|
        invariant 0 <= i <= |slots| && slots == old(slots)
        invariant Tickets(View()) && PumpFrom(View(), i) == Pump(old(View()))
      {
        var slot := slots[i];
        assert View().slots[i] == slot.View();
        if slot.ready && slot.current.None? {
          if queue == [] {
            return;
          }
          PostTo(slot, i);
        }
        i := i + 1;
      }
    }

    method OnReady(slot: WorkerSlot, ghost i: nat)
      requires Valid() && i < |slots| && slots[i] == slot
      modifies this, slots
      ensures Valid() && slots == old(slots) && View() == Ready(old(View()), i)
    {
      ghost var before := View();
      slot.ready := true;
      assert View() == before.(slots := before.slots[i := before.slots[i].(ready := true)]);
      ReadyKeeps(before, i);
      PumpKeeps(View(), 0);
      PumpSlots();
    }

    // The answer settles the job of its own id, if the slot holds it.
    method Take(slot: WorkerSlot, ghost i: nat, id: string, result: R)
      requires Distinct(slots) && Tickets(View()) && i < |slots| && slots[i] == slot
      modifies this`fates, this`settling, slot`current
      ensures View() == Taken(old(View()), i, id, result)
    {
      ghost var before := View();
      assert before.slots[i] == slot.View();
      if slot.current.Some? && slot.current.value.job.id == id {
        var done := slot.current.value;
        slot.current := None;
        fates := fates[done.ticket := Settled(Resolved(slot.worker, id, result))];
        settling := settling + {done.job.id};
        assert Views(slots) == before.slots[i := before.slots[i].(current := None)];
      }
    }

    method OnResult(slot: WorkerSlot, ghost i: nat, id: string, result: R)
      requires Valid() && i < |slots| && slots[i] == slot
      modifies this, slots
      ensures Valid() && slots == old(slots) && View() == Answered(old(View()), i, id, result)
    {
      ghost var before := View();
      TakenKeeps(before, i, id, result);
      PumpKeeps(Taken(before, i, id, result), 0);
      Take(slot, i, id, result);
      PumpSlots();
    }

    method Reject(p: Pending)
      requires p.ticket < |fates|
      modifies this`fates, this`settling
      ensures View() == Settle(old(View()), p, Rejected)
    {
      fates := fates[p.ticket := Settled(Rejected)];
      settling := settling + {p.job.id};
    }

    method RejectQueue()
      requires Tickets(View())
      modifies this`fates, this`settling, this`queue
      ensures View() == Flush(old(View()))
    {
      var waiting := queue;
      queue := [];
      ghost var start := View();
      var i := 0;
      while i < |waiting|
        invariant 0 <= i <= |waiting| && |fates| == |old(fates)| && queue == []
        invariant SettleAll(View(), waiting[i..], Rejected) == SettleAll(start, waiting, Rejected)
      {
        Reject(waiting[i]);
        i := i + 1;
      }
    }

    // The slot goes with its worker.
    method ReleaseSlot(slot: WorkerSlot, ghost i: nat)
      requires Distinct(slots) && Tickets(View()) && i < |slots| && slots[i] == slot
      modifies this`slots, this`fates, this`settling
      ensures View() == Release(old(View()), i) && slots == old(slots[..i] + slots[i + 1..])
    {
      ghost var before := View();
      assert before.slots[i] == slot.View();
      OthersWithout(slots, i);
      slots := Others(slots, slot);
      assert Views(slots) == Without(before.slots, i);
      if slot.current.Some? {
        Reject(slot.current.value);
      }
    }

    method OnError(slot: WorkerSlot, ghost i: nat)
      requires Valid() && i < |slots| && slots[i] == slot
      modifies this
      ensures Valid() && View() == Drop(old(View()), i) && slots == old(slots[..i] + slots[i + 1..])
    {
      DropKeeps(View(), i);
      ReleaseSlot(slot, i);
      if slots == [] {
        RejectQueue();
      }
    }

    method Enqueue(job: Job)
      modifies this`queue, this`inFlight, this`jobs, this`fates
      ensures View() == Accept(old(View()), job)
    {
      queue := queue + [Pending(|jobs|, job)];
      inFlight := inFlight[job.id := |jobs|];
      jobs, fates := jobs + [job], fates + [Queued];
    }

    method Decrypt(job: Job) returns (reply: Reply)
      requires Valid()
      modifies this, slots
      ensures Valid() && slots == old(slots) && (View(), reply) == Submit(old(View()), job)
    {
      if terminated {
        return Refused;
      }
      if job.id in inFlight {
        return Promise(inFlight[job.id]);
      }
      ghost var before := View();
      AcceptKeeps(before, job);
      PumpKeeps(Accept(before, job), 0);
      reply := Promise(|jobs|);
      Enqueue(job);
      PumpSlots();
    }

    method TerminateAll()
      requires Valid()
      modifies this
      ensures Valid() && View() == Shut(old(View())) && slots == []
    {
      ShutKeeps(View());
      while slots != []
        invariant Distinct(slots) && Tickets(View()) && ReleaseAll(View()) == ReleaseAll(old(View()))
        decreases |slots|
      {
        ReleaseSlot(slots[0], 0);
      }
      RejectQueue();
      terminated := true;
      assert View() == Shut(old(View()));
    }

    method ForgetSettled(id: string)
      requires Valid()
      modifies this`inFlight, this`settling
      ensures Valid() && View() == Forget(old(View()), id)
    {
      ForgetKeeps(View(), id);
      if id in settling {
        inFlight, settling := inFlight - {id}, settling - {id};
      }
      assert View() == Forget(old(View()), id);
    }
  }
}
