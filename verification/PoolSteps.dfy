/** Single steps of the decrypt pool, seen from outside: which workers stay, which are awake, which ids
    are known, and which jobs are posted to which workers in which order. */
module PoolSteps {
  import opened Common
  import opened Pool

  ghost predicate Awake<R>(s: State<R>, worker: nat) {
    exists i: nat :: i < |s.slots| && s.slots[i].worker == worker && s.slots[i].ready
  }

  /** What an event does to the workers: a death takes away that worker, termination all of them, and a
      ready message wakes its sender for good. */
  ghost predicate Workers<R>(s: State<R>, e: Event<R>, r: State<R>) {
    && (forall v :: Live(r, v) <==> Live(s, v) && !e.Terminate? && !(e.Died? && e.worker == v))
    && (forall v :: Awake(r, v) <==> Live(r, v) && (Awake(s, v) || (e.IsReady? && e.worker == v)))
  }

  // An id is outstanding or waits for its microtask exactly while the pool knows it.
  ghost predicate Remembers<R>(s: State<R>, e: Event<R>, r: State<R>) {
    match e
    case Decrypt(job) =>
      if s.terminated || job.id in s.inFlight then r.jobs == s.jobs && r.inFlight == s.inFlight
      else r.jobs == s.jobs + [job] && r.inFlight == s.inFlight[job.id := |s.jobs|]
    case Microtask(id) =>
      && r.jobs == s.jobs
      && (forall x :: x in r.inFlight <==>
            x in s.inFlight && !(x == id && s.inFlight[x] < |s.fates| && s.fates[s.inFlight[x]].Settled?))
      && (forall x :: x in r.inFlight ==> r.inFlight[x] == s.inFlight[x])
    case _ => r.jobs == s.jobs && r.inFlight == s.inFlight
  }

  // Slots that keep their workers, and in each whether it is awake.
  ghost predicate SameWorkers(a: seq<Slot>, b: seq<Slot>) {
    |a| == |b| && forall i :: 0 <= i < |a| ==> a[i].worker == b[i].worker && a[i].ready == b[i].ready
  }

  lemma SameAreLive<R>(s: State<R>, r: State<R>)
    requires SameWorkers(s.slots, r.slots)
    ensures forall v :: (Live(r, v) <==> Live(s, v)) && (Awake(r, v) <==> Awake(s, v))
  {
    forall v ensures (Live(r, v) <==> Live(s, v)) && (Awake(r, v) <==> Awake(s, v)) {
      if i: nat :| i < |s.slots| && s.slots[i].worker == v && s.slots[i].ready { assert r.slots[i].worker == v; }
      if i: nat :| i < |r.slots| && r.slots[i].worker == v && r.slots[i].ready { assert s.slots[i].worker == v; }
      if i: nat :| i < |s.slots| && s.slots[i].worker == v { assert r.slots[i].worker == v; }
      if i: nat :| i < |r.slots| && r.slots[i].worker == v { assert s.slots[i].worker == v; }
    }
  }

  lemma AwakeIsLive<R>(s: State<R>)
    ensures forall v :: Awake(s, v) ==> Live(s, v)
  {
    forall v | Awake(s, v) ensures Live(s, v) {
      var i: nat :| i < |s.slots| && s.slots[i].worker == v && s.slots[i].ready;
    }
  }

  lemma CoreHasTickets<R>(s: State<R>)
    requires Core(s)
    ensures Tickets(s)
  {
  }

  // What a pump leaves alone.
  lemma PumpStays<R>(s: State<R>)
    requires Core(s)
    ensures SameWorkers(s.slots, Pump(s).slots) && Pump(s).inFlight == s.inFlight && Pump(s).jobs == s.jobs
  {
    PumpOnlyPosts(s, 0);
    hide Core, Pump;
  }

  lemma WokenWorkers<R>(s: State<R>, w: nat)
    requires SlotInv(s) && Live(s, w)
    ensures var a := s.(slots := s.slots[SlotOf(s, w) := s.slots[SlotOf(s, w)].(ready := true)]);
            forall v :: (Live(a, v) <==> Live(s, v)) && (Awake(a, v) <==> Awake(s, v) || v == w)
  {
    var i := SlotOf(s, w);
    var a := s.(slots := s.slots[i := s.slots[i].(ready := true)]);
    assert a.slots[i].worker == w && a.slots[i].ready;
    forall v ensures (Live(a, v) <==> Live(s, v)) && (Awake(a, v) <==> Awake(s, v) || v == w) {
      if j: nat :| j < |s.slots| && s.slots[j].worker == v { assert a.slots[j].worker == v; }
      if j: nat :| j < |a.slots| && a.slots[j].worker == v { assert s.slots[j].worker == v; }
      if j: nat :| j < |s.slots| && s.slots[j].worker == v && s.slots[j].ready { assert a.slots[j].worker == v && a.slots[j].ready; }
      if j: nat :| j < |a.slots| && a.slots[j].worker == v && a.slots[j].ready { assert s.slots[j].worker == v; }
    }
  }

  lemma ReleasedWorkers<R>(s: State<R>, w: nat)
    requires Core(s) && Live(s, w)
    ensures var a := Release(s, SlotOf(s, w));
            && a.inFlight == s.inFlight && a.jobs == s.jobs
            && forall v :: (Live(a, v) <==> Live(s, v) && v != w) && (Awake(a, v) <==> Awake(s, v) && v != w)
  {
    hide QueueInv, PostInv, SettledInv, IdInv;
    var i := SlotOf(s, w);
    var a := Release(s, i);
    assert a.slots == Without(s.slots, i);
    WithoutIs(s.slots, i);
    hide Without, Release;
    forall v ensures (Live(a, v) <==> Live(s, v) && v != w) && (Awake(a, v) <==> Awake(s, v) && v != w) {
      LeftWorker(s, a, i, v);
    }
  }

  lemma LeftWorker<R>(s: State<R>, a: State<R>, i: nat, v: nat)
    requires i < |s.slots| && |a.slots| == |s.slots| - 1
    requires forall j, k :: 0 <= j < k < |s.slots| ==> s.slots[j].worker != s.slots[k].worker
    requires forall j :: 0 <= j < |s.slots| - 1 ==> a.slots[j] == s.slots[if j < i then j else j + 1]
    ensures Live(a, v) <==> Live(s, v) && v != s.slots[i].worker
    ensures Awake(a, v) <==> Awake(s, v) && v != s.slots[i].worker
  {
    if j: nat :| j < |s.slots| && s.slots[j].worker == v && j != i {
      assert a.slots[if j > i then j - 1 else j].worker == v;
    }
    if j: nat :| j < |a.slots| && a.slots[j].worker == v {
      assert s.slots[if j < i then j else j + 1].worker == v;
    }
    if j: nat :| j < |s.slots| && s.slots[j].worker == v && s.slots[j].ready && j != i {
      assert a.slots[if j > i then j - 1 else j].worker == v && a.slots[if j > i then j - 1 else j].ready;
    }
    if j: nat :| j < |a.slots| && a.slots[j].worker == v && a.slots[j].ready {
      assert s.slots[if j < i then j else j + 1].worker == v && s.slots[if j < i then j else j + 1].ready;
    }
  }

  lemma FlushStays<R>(s: State<R>)
    requires Core(s)
    ensures Flush(s).slots == s.slots && Flush(s).inFlight == s.inFlight && Flush(s).jobs == s.jobs
  {
    hide QueueInv, SlotInv, PostInv, SettledInv, IdInv;
    FlushFollows(s);
    SettleAllEffect(s.(queue := []), s.queue, Rejected);
  }

  lemma {:induction false} ReleaseAllStays<R>(s: State<R>)
    requires Tickets(s)
    ensures ReleaseAll(s).slots == [] && ReleaseAll(s).inFlight == s.inFlight && ReleaseAll(s).jobs == s.jobs
    decreases |s.slots|
  {
    if s.slots != [] {
      ReleaseAllStays(Release(s, 0));
    }
  }

  lemma DecryptWorkers<R>(s: State<R>, job: Job)
    requires Inv(s)
    ensures var r := Submit(s, job).0; Workers(s, Decrypt(job), r) && Remembers(s, Decrypt(job), r)
  {
    hide QueueInv, SlotInv, PostInv, SettledInv, IdInv, Live, Awake, Pump;
    AwakeIsLive(s);
    if !s.terminated && job.id !in s.inFlight {
      AcceptKeeps(s, job);
      CoreHasTickets(Accept(s, job));
      PumpStays(Accept(s, job));
      SameAreLive(s, Pump(Accept(s, job)));
    }
  }

  lemma ReadyWorkers<R>(s: State<R>, w: nat)
    requires Inv(s) && Live(s, w)
    ensures var r := Ready(s, SlotOf(s, w)); Workers(s, IsReady(w), r) && Remembers(s, IsReady(w), r)
  {
    hide QueueInv, SlotInv, PostInv, SettledInv, IdInv, Live, Awake, Pump;
    var a := s.(slots := s.slots[SlotOf(s, w) := s.slots[SlotOf(s, w)].(ready := true)]);
    AwakeIsLive(s);
    ReadyKeeps(s, SlotOf(s, w));
    CoreHasTickets(a);
    WokenWorkers(s, w);
    PumpStays(a);
    SameAreLive(a, Pump(a));
  }

  lemma AnswerWorkers<R>(s: State<R>, w: nat, id: string, result: R)
    requires Inv(s) && Live(s, w)
    ensures var r := Answered(s, SlotOf(s, w), id, result);
            Workers(s, Answer(w, id, result), r) && Remembers(s, Answer(w, id, result), r)
  {
    hide QueueInv, SlotInv, PostInv, SettledInv, IdInv, Live, Awake, Pump;
    CoreHasTickets(s);
    var a := Taken(s, SlotOf(s, w), id, result);
    AwakeIsLive(s);
    TakenKeeps(s, SlotOf(s, w), id, result);
    CoreHasTickets(a);
    PumpStays(a);
    SameAreLive(s, a);
    SameAreLive(a, Pump(a));
  }

  lemma DiedWorkers<R>(s: State<R>, w: nat)
    requires Inv(s) && Live(s, w)
    ensures var r := Drop(s, SlotOf(s, w)); Workers(s, Died(w), r) && Remembers(s, Died(w), r)
  {
    hide QueueInv, SlotInv, PostInv, SettledInv, IdInv, Live, Awake, Release, Flush;
    CoreHasTickets(s);
    AwakeIsLive(s);
    ReleaseKeeps(s, SlotOf(s, w));
    ReleasedWorkers(s, w);
    FlushStays(Release(s, SlotOf(s, w)));
    SameAreLive(Release(s, SlotOf(s, w)), Flush(Release(s, SlotOf(s, w))));
  }

  lemma ShutWorkers<R>(s: State<R>)
    requires Inv(s)
    ensures Workers(s, Terminate, Shut(s)) && Remembers(s, Terminate, Shut(s))
  {
    hide QueueInv, SlotInv, PostInv, SettledInv, IdInv, ReleaseAll, Flush;
    CoreHasTickets(s);
    ReleaseAllKeeps(s);
    ReleaseAllStays(s);
    FlushStays(ReleaseAll(s));
  }

  lemma ForgetWorkers<R>(s: State<R>, id: string)
    requires Inv(s)
    ensures Workers(s, Microtask(id), Forget(s, id)) && Remembers(s, Microtask(id), Forget(s, id))
  {
    hide QueueInv, SlotInv, PostInv, SettledInv, Live, Awake;
    AwakeIsLive(s);
    SameAreLive(s, Forget(s, id));
  }

  lemma DeadChangesNothing<R>(s: State<R>, e: Event<R>)
    requires (e.IsReady? || e.Answer? || e.Died?) && !Live(s, e.worker)
    ensures Workers(s, e, s) && Remembers(s, e, s)
  {
    hide Live, Awake;
    AwakeIsLive(s);
  }

  /** Every event, whatever the state: which workers are left and awake, and which ids the pool knows. An
      id is forgotten by its microtask and by nothing else, and only once its promise is settled. */
  lemma StepRemembers<R>(s: State<R>, e: Event<R>)
    requires Inv(s)
    ensures Workers(s, e, Step(s, e)) && Remembers(s, e, Step(s, e))
  {
    hide Inv, Workers, Remembers, Live, Submit, Ready, Answered, Drop, Shut, Forget;
    match e
    case Decrypt(job) => DecryptWorkers(s, job);
    case IsReady(w) => if Live(s, w) { ReadyWorkers(s, w); } else { DeadChangesNothing(s, e); }
    case Answer(w, id, result) => if Live(s, w) { AnswerWorkers(s, w, id, result); } else { DeadChangesNothing(s, e); }
    case Died(w) => if Live(s, w) { DiedWorkers(s, w); } else { DeadChangesNothing(s, e); }
    case Terminate => ShutWorkers(s);
    case Microtask(id) => ForgetWorkers(s, id);
  }

  /** Once every promise for an id is settled and its microtask has run, a call with that id is a new job;
      until then the caller shares a promise. */
  lemma ForgottenIsNew<R>(s: State<R>, job: Job)
    requires Inv(s) && !s.terminated
    requires forall t :: 0 <= t < |s.jobs| && s.jobs[t].id == job.id ==> s.fates[t].Settled?
    ensures var m := Step(s, Microtask(job.id)); var (r, reply) := Submit(m, job);
            reply == Promise(|s.jobs|) && r.jobs == s.jobs + [job]
    ensures job.id in s.inFlight ==> Submit(s, job) == (s, Promise(s.inFlight[job.id]))
  {
    hide QueueInv, SlotInv, PostInv, SettledInv;
    CoreHasTickets(s);
    var m := Step(s, Microtask(job.id));
    StepRemembers(s, Microtask(job.id));
    StepKeeps(s, Microtask(job.id));
    if job.id in s.inFlight {
      assert s.jobs[s.inFlight[job.id]].id == job.id;
    }
    StepRemembers(m, Decrypt(job));
    hide Workers, Pump;
  }

  // The ready idle workers, in slot order.
  function Idle(slots: seq<Slot>): seq<nat> {
    if slots == [] then []
    else (if slots[0].ready && slots[0].current.None? then [slots[0].worker] else []) + Idle(slots[1..])
  }

  // The first jobs of the queue, one to each worker of a list.
  ghost predicate Dealt<R>(s: State<R>, workers: seq<nat>, r: State<R>) {
    var n := Min(|s.queue|, |workers|);
    && r.queue == s.queue[n..]
    && |r.posted| == |s.posted| + n && r.posted[..|s.posted|] == s.posted
    && forall k :: 0 <= k < n ==> r.posted[|s.posted| + k] == Post(workers[k], s.queue[k].ticket)
  }

  lemma DealtNothing<R>(s: State<R>, workers: seq<nat>)
    requires s.queue == [] || workers == []
    ensures Dealt(s, workers, s)
  {
  }

  lemma DealtFirst<R>(s: State<R>, worker: nat, rest: seq<nat>, a: State<R>, r: State<R>)
    requires s.queue != [] && a.queue == s.queue[1..] && a.posted == s.posted + [Post(worker, s.queue[0].ticket)]
    requires Dealt(a, rest, r)
    ensures Dealt(s, [worker] + rest, r)
  {
    var n := Min(|s.queue|, |rest| + 1);
    assert n == 1 + Min(|a.queue|, |rest|);
    assert s.queue[1..][n - 1..] == s.queue[n..];
    assert r.posted[..|s.posted|] == r.posted[..|a.posted|][..|s.posted|];
    assert r.posted[|s.posted|] == r.posted[..|a.posted|][|s.posted|];
    forall k | 0 <= k < n ensures r.posted[|s.posted| + k] == Post(([worker] + rest)[k], s.queue[k].ticket) {
      if k > 0 {
        assert r.posted[|a.posted| + (k - 1)] == Post(rest[k - 1], a.queue[k - 1].ticket);
      }
    }
  }

  lemma {:induction false} PumpDealsFrom<R>(s: State<R>, i: nat)
    requires Tickets(s) && i <= |s.slots|
    ensures Dealt(s, Idle(s.slots[i..]), PumpFrom(s, i))
    decreases |s.slots| - i
  {
    hide Dealt;
    if i == |s.slots| {
      DealtNothing(s, Idle(s.slots[i..]));
    } else {
      assert s.slots[i..][1..] == s.slots[i + 1..];
      if !s.slots[i].ready || s.slots[i].current.Some? {
        PumpDealsFrom(s, i + 1);
        assert Idle(s.slots[i..]) == Idle(s.slots[i + 1..]);
      } else if s.queue == [] {
        DealtNothing(s, Idle(s.slots[i..]));
      } else {
        var a := Assign(s, i);
        PumpDealsFrom(a, i + 1);
        assert a.slots[i + 1..] == s.slots[i + 1..];
        DealtFirst(s, s.slots[i].worker, Idle(s.slots[i + 1..]), a, PumpFrom(a, i + 1));
      }
    }
  }

  /** A pump deals: the waiting jobs go in their order to the ready idle workers in theirs, until either
      run out, and nobody else is posted anything. */
  lemma PumpDeals<R>(s: State<R>)
    requires Tickets(s)
    ensures Dealt(s, Idle(s.slots), Pump(s))
  {
    assert s.slots[0..] == s.slots;
    PumpDealsFrom(s, 0);
  }

  lemma {:induction false} IdleIsReady(slots: seq<Slot>, v: nat)
    requires v in Idle(slots)
    ensures exists i: nat :: i < |slots| && slots[i].worker == v && slots[i].ready
    decreases |slots|
  {
    if slots[0].ready && slots[0].current.None? && slots[0].worker == v {
      assert slots[0].ready;
    } else {
      IdleIsReady(slots[1..], v);
      var i: nat :| i < |slots[1..]| && slots[1..][i].worker == v && slots[1..][i].ready;
      assert slots[i + 1].worker == v && slots[i + 1].ready;
    }
  }

  // What is posted anew goes to workers that are awake.
  ghost predicate PostsAwake<R>(s: State<R>, r: State<R>) {
    && |s.posted| <= |r.posted| && r.posted[..|s.posted|] == s.posted
    && forall k :: |s.posted| <= k < |r.posted| ==> Awake(r, r.posted[k].worker)
  }

  lemma PumpPosts<R>(s: State<R>)
    requires Core(s)
    ensures PostsAwake(s, Pump(s))
  {
    CoreHasTickets(s);
    hide Core;
    PumpDeals(s);
    var r := Pump(s);
    PumpStaysAwake(s);
    hide Pump, Awake;
    forall k | |s.posted| <= k < |r.posted| ensures Awake(r, r.posted[k].worker) {
      assert r.posted[k] == r.posted[|s.posted| + (k - |s.posted|)];
      ReadyIsAwake(s, Idle(s.slots)[k - |s.posted|]);
    }
  }

  lemma ReadyIsAwake<R>(s: State<R>, v: nat)
    requires v in Idle(s.slots)
    ensures Awake(s, v)
  {
    IdleIsReady(s.slots, v);
  }

  lemma PumpStaysAwake<R>(s: State<R>)
    requires Core(s)
    ensures forall v :: Awake(Pump(s), v) <==> Awake(s, v)
  {
    CoreHasTickets(s);
    PumpStays(s);
    SameAreLive(s, Pump(s));
  }

  lemma StepPosts<R>(s: State<R>, e: Event<R>)
    requires Inv(s)
    ensures PostsAwake(s, Step(s, e))
  {
    hide QueueInv, SlotInv, PostInv, SettledInv, IdInv, Awake, Pump, Live;
    CoreHasTickets(s);
    match e
    case Decrypt(job) =>
      if !s.terminated && job.id !in s.inFlight {
        AcceptKeeps(s, job);
        PumpPosts(Accept(s, job));
      }
    case IsReady(w) =>
      if Live(s, w) {
        var a := s.(slots := s.slots[SlotOf(s, w) := s.slots[SlotOf(s, w)].(ready := true)]);
        ReadyKeeps(s, SlotOf(s, w));
        PumpPosts(a);
      }
    case Answer(w, id, result) =>
      if Live(s, w) {
        TakenKeeps(s, SlotOf(s, w), id, result);
        PumpPosts(Taken(s, SlotOf(s, w), id, result));
      }
    case Died(w) =>
      if Live(s, w) {
        DropPosts(s, SlotOf(s, w));
      }
    case Terminate =>
      ShutPosts(s);
    case Microtask(_) =>
  }

  lemma DropPosts<R>(s: State<R>, i: nat)
    requires Core(s) && i < |s.slots|
    ensures Drop(s, i).posted == s.posted
  {
    ReleaseKeeps(s, i);
    FlushPosts(Release(s, i));
    hide Core, Flush;
  }

  lemma FlushPosts<R>(s: State<R>)
    requires Core(s)
    ensures Flush(s).posted == s.posted
  {
    SettleAllEffect(s.(queue := []), s.queue, Rejected);
    hide Core;
  }

  lemma {:induction false} ReleaseAllPosts<R>(s: State<R>)
    requires Tickets(s)
    ensures ReleaseAll(s).posted == s.posted
    decreases |s.slots|
  {
    if s.slots != [] {
      ReleaseAllPosts(Release(s, 0));
    }
  }

  lemma ShutPosts<R>(s: State<R>)
    requires Core(s)
    ensures Shut(s).posted == s.posted
  {
    CoreHasTickets(s);
    ReleaseAllKeeps(s);
    ReleaseAllPosts(s);
    FlushPosts(ReleaseAll(s));
    hide Core, Flush, ReleaseAll;
  }

  /** Nothing is posted to a worker before its ready message, and at first none is awake: over every run,
      each worker that is awake, and each that was ever posted a job, has sent it. */
  lemma {:induction false} NothingIsPostedEarly<R>(size: nat, events: seq<Event<R>>)
    ensures var s := Run(Init<R>(size), events);
      && (forall v :: Awake(s, v) ==> IsReady(v) in events)
      && (forall k :: 0 <= k < |s.posted| ==> IsReady(s.posted[k].worker) in events)
    ensures forall v: nat :: Live(Init<R>(size), v) <==> v < size
    decreases |events|
  {
    InitInv<R>(size);
    FirstWorkers<R>(size);
    if events != [] {
      var n := |events| - 1;
      var s, r := Run(Init<R>(size), events[..n]), Run(Init<R>(size), events);
      RunKeeps(Init<R>(size), events[..n]);
      NothingIsPostedEarly(size, events[..n]);
      StepRemembers(s, events[n]);
      StepPosts(s, events[n]);
      hide Run, Init, Awake, Live, Inv, Remembers, Step;
      assert events == events[..n] + [events[n]];
      forall k | 0 <= k < |r.posted| ensures IsReady(r.posted[k].worker) in events {
        if k < |s.posted| {
          assert r.posted[k] == s.posted[k];
        }
      }
    }
  }

  lemma FirstWorkers<R>(size: nat)
    ensures forall v: nat :: Live(Init<R>(size), v) <==> v < size
    ensures forall v :: !Awake(Init<R>(size), v)
    ensures Init<R>(size).posted == []
  {
    var s := Init<R>(size);
    forall v: nat ensures Live(s, v) <==> v < size {
      if v < size {
        assert s.slots[v].worker == v;
      }
    }
  }
}
