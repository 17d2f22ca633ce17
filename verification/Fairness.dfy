/** Endless runs of the pool in which every live worker does its part: what becomes of each job. */
module Fairness {
  import opened Common
  import opened Pool

  ghost function StateAt<R>(s: State<R>, run: nat -> Event<R>, n: nat): (r: State<R>)
    requires Tickets(s)
    ensures Tickets(r)
  {
    if n == 0 then s else Step(StateAt(s, run, n - 1), run(n - 1))
  }

  lemma HasTickets<R>(s: State<R>)
    requires Inv(s)
    ensures Tickets(s)
  {
  }

  lemma AtNext<R>(s: State<R>, run: nat -> Event<R>, n: nat)
    requires Tickets(s)
    ensures StateAt(s, run, n + 1) == Step(StateAt(s, run, n), run(n))
  {
  }

  ghost predicate Wakes<R>(s: State<R>, run: nat -> Event<R>, m: nat, w: nat)
    requires Tickets(s)
  {
    !Live(StateAt(s, run, m), w) || run(m) == IsReady(w)
  }

  ghost predicate Replies<R>(s: State<R>, run: nat -> Event<R>, m: nat, w: nat, id: string)
    requires Tickets(s)
  {
    !Live(StateAt(s, run, m), w) || (run(m).Answer? && run(m).worker == w && run(m).id == id)
  }

  // Unless it dies or is terminated first, every worker gets ready and answers each job it is posted.
  ghost predicate Fair<R>(s: State<R>, run: nat -> Event<R>)
    requires Tickets(s)
  {
    forall n: nat, i: nat :: i < |StateAt(s, run, n).slots| ==>
      var slot := StateAt(s, run, n).slots[i];
      && (!slot.ready ==> exists m: nat :: n <= m && Wakes(s, run, m, slot.worker))
      && (slot.current.Some? ==> exists m: nat :: n <= m && Replies(s, run, m, slot.worker, slot.current.value.job.id))
  }

  // The jobs up to `t` that are not settled yet, and the workers that are not ready yet.
  ghost function Before<R>(s: State<R>, t: nat): set<nat> {
    set u: nat | u <= t && u < |s.fates| && !s.fates[u].Settled?
  }

  ghost function Asleep<R>(s: State<R>): set<nat> {
    set i: nat | i < |s.slots| && !s.slots[i].ready :: s.slots[i].worker
  }

  ghost predicate SettledAt<R>(s: State<R>, t: nat) {
    t < |s.fates| && s.fates[t].Settled?
  }

  // `r` is no farther from settling job `t` than `s`, and some worker is left to do it.
  ghost predicate NoFarther<R>(s: State<R>, r: State<R>, t: nat) {
    && t < |r.jobs| && t < |r.fates|
    && (r.fates[t].Settled? || (r.slots != [] && Before(r, t) <= Before(s, t) && Asleep(r) <= Asleep(s)))
  }

  lemma PostsKeepAsleep<R>(s: State<R>, r: State<R>)
    requires OnlyPosts(s, r)
    ensures Asleep(r) == Asleep(s) && (s.slots != [] ==> r.slots != [])
  {
    forall w | w in Asleep(r) ensures w in Asleep(s) {
      var i: nat :| i < |r.slots| && !r.slots[i].ready && r.slots[i].worker == w;
      assert !s.slots[i].ready && s.slots[i].worker == w;
    }
    forall w | w in Asleep(s) ensures w in Asleep(r) {
      var i: nat :| i < |s.slots| && !s.slots[i].ready && s.slots[i].worker == w;
      assert !r.slots[i].ready && r.slots[i].worker == w;
    }
  }

  lemma WokenIsAwake<R>(s: State<R>, i: nat)
    requires SlotInv(s) && i < |s.slots|
    ensures var a := s.(slots := s.slots[i := s.slots[i].(ready := true)]);
            Asleep(a) == Asleep(s) - {s.slots[i].worker}
  {
    var a := s.(slots := s.slots[i := s.slots[i].(ready := true)]);
    forall w | w in Asleep(s) && w != s.slots[i].worker ensures w in Asleep(a) {
      var j: nat :| j < |s.slots| && !s.slots[j].ready && s.slots[j].worker == w;
      assert !a.slots[j].ready && a.slots[j].worker == w;
    }
    forall w | w in Asleep(a) ensures w in Asleep(s) && w != s.slots[i].worker {
      var j: nat :| j < |a.slots| && !a.slots[j].ready && a.slots[j].worker == w;
      assert j != i && s.slots[j].worker == w;
    }
  }

  lemma ReadyAsleep<R>(s: State<R>, w: nat)
    requires Inv(s) && Live(s, w)
    ensures Asleep(Step(s, IsReady(w))) == Asleep(s) - {w} && Step(s, IsReady(w)).slots != []
  {
    var i := SlotOf(s, w);
    var a := s.(slots := s.slots[i := s.slots[i].(ready := true)]);
    ReadyKeeps(s, i);
    WokenIsAwake(s, i);
    PumpOnlyPosts(a, 0);
    PostsKeepAsleep(a, Pump(a));
  }

  lemma AnswerAsleep<R>(s: State<R>, w: nat, id: string, result: R)
    requires Inv(s) && Live(s, w)
    ensures Asleep(Step(s, Answer(w, id, result))) == Asleep(s) && Step(s, Answer(w, id, result)).slots != []
  {
    hide PumpFrom, OnlyPosts, QueueInv, PostInv, SettledInv, IdInv;
    var i := SlotOf(s, w);
    var a := Taken(s, i, id, result);
    TakenKeeps(s, i, id, result);
    assert |a.slots| == |s.slots|;
    assert forall j :: 0 <= j < |s.slots| ==> a.slots[j].worker == s.slots[j].worker && a.slots[j].ready == s.slots[j].ready;
    assert Asleep(a) == Asleep(s);
    PumpOnlyPosts(a, 0);
    PostsKeepAsleep(a, Pump(a));
  }

  lemma DecryptAsleep<R>(s: State<R>, job: Job)
    requires Inv(s) && s.slots != []
    ensures Asleep(Step(s, Decrypt(job))) == Asleep(s) && Step(s, Decrypt(job)).slots != []
  {
    if !s.terminated && job.id !in s.inFlight {
      var a := Accept(s, job);
      AcceptKeeps(s, job);
      assert Asleep(a) == Asleep(s);
      PumpOnlyPosts(a, 0);
      PostsKeepAsleep(a, Pump(a));
    }
  }

  lemma DiedAsleep<R>(s: State<R>, w: nat)
    requires Inv(s) && Live(s, w) && |s.slots| > 1
    ensures Asleep(Step(s, Died(w))) <= Asleep(s) && Step(s, Died(w)).slots != []
  {
    var i := SlotOf(s, w);
    var r := Release(s, i);
    WithoutIs(s.slots, i);
    hide Without, PostInv, SettledInv, IdInv, SlotInv;
    forall v | v in Asleep(r) ensures v in Asleep(s) {
      var j: nat :| j < |r.slots| && !r.slots[j].ready && r.slots[j].worker == v;
      assert s.slots[if j < i then j else j + 1] == r.slots[j];
    }
  }

  // The death of the last worker and termination settle everything.
  lemma EndSettles<R>(s: State<R>, e: Event<R>, t: nat)
    requires Inv(s) && t < |s.jobs|
    requires e.Terminate? || (e.Died? && Live(s, e.worker) && |s.slots| == 1)
    ensures t < |Step(s, e).fates| && Step(s, e).fates[t].Settled?
  {
    hide Step, SlotInv, PostInv, SettledInv, IdInv, Busy;
    StepEffect(s, e);
    assert Moves(s, e, Step(s, e), t);
    OnlySlotHolds(s, t);
  }

  lemma OnlySlotHolds<R>(s: State<R>, t: nat)
    requires Inv(s) && t < |s.jobs|
    ensures |s.fates| == |s.jobs| && (|s.slots| == 1 && s.fates[t].Running? ==> InSlot(s, 0, t))
  {
    if s.fates[t].Running? {
      var i: nat :| InSlot(s, i, t);
    }
  }

  lemma BeforeShrinks<R>(s: State<R>, e: Event<R>, t: nat)
    requires Inv(s) && t < |s.jobs|
    ensures t < |Step(s, e).jobs| && Before(Step(s, e), t) <= Before(s, t)
  {
    StepEffect(s, e);
    forall u | u in Before(Step(s, e), t) ensures u in Before(s, t) {
      assert Later(s.fates[u], Step(s, e).fates[u]);
    }
  }

  lemma StepNoFarther<R>(s: State<R>, e: Event<R>, t: nat)
    requires Inv(s) && t < |s.jobs| && s.slots != []
    ensures NoFarther(s, Step(s, e), t)
  {
    BeforeShrinks(s, e, t);
    if e.Terminate? || (e.Died? && Live(s, e.worker) && |s.slots| == 1) {
      EndSettles(s, e, t);
    } else {
      match e
      case Decrypt(job) => DecryptAsleep(s, job);
      case IsReady(w) => if Live(s, w) { ReadyAsleep(s, w); }
      case Answer(w, id, result) => if Live(s, w) { AnswerAsleep(s, w, id, result); }
      case Died(w) => if Live(s, w) { DiedAsleep(s, w); }
      case Microtask(_) =>
    }
  }

  lemma {:induction false} AtKeeps<R>(s: State<R>, run: nat -> Event<R>, n: nat)
    requires Inv(s)
    ensures Inv(StateAt(s, run, n))
  {
    if n > 0 {
      AtKeeps(s, run, n - 1);
      StepKeeps(StateAt(s, run, n - 1), run(n - 1));
    }
  }

  lemma StepFollows<R>(s: State<R>, e: Event<R>)
    requires Inv(s)
    ensures Follows(s, Step(s, e))
  {
    StepEffect(s, e);
  }

  lemma FollowsItself<R>(s: State<R>)
    requires Tickets(s)
    ensures Follows(s, s)
  {
  }

  lemma {:induction false} AtFollows<R>(s: State<R>, run: nat -> Event<R>, n: nat, m: nat)
    requires Inv(s) && n <= m
    ensures Follows(StateAt(s, run, n), StateAt(s, run, m))
    decreases m - n
  {
    hide StateAt, Step, Follows;
    if n < m {
      AtFollows(s, run, n, m - 1);
      AtKeeps(s, run, m - 1);
      AtNext(s, run, m - 1);
      StepFollows(StateAt(s, run, m - 1), run(m - 1));
      FollowsTrans(StateAt(s, run, n), StateAt(s, run, m - 1), StateAt(s, run, m));
    } else {
      FollowsItself(StateAt(s, run, n));
    }
  }

  lemma NoFartherThen<R>(a: State<R>, b: State<R>, c: State<R>, t: nat)
    requires NoFarther(a, b, t) && Follows(b, c) && (!b.fates[t].Settled? ==> NoFarther(b, c, t))
    ensures NoFarther(a, c, t)
  {
    assert Later(b.fates[t], c.fates[t]);
  }

  // One more step is no step back.
  lemma OneStepOn<R>(a: State<R>, b: State<R>, e: Event<R>, t: nat)
    requires Inv(b) && NoFarther(a, b, t)
    ensures NoFarther(a, Step(b, e), t)
  {
    hide Step, Inv, Follows;
    StepFollows(b, e);
    if !b.fates[t].Settled? {
      StepNoFarther(b, e, t);
    }
    NoFartherThen(a, b, Step(b, e), t);
  }

  lemma NoFartherHere<R>(s: State<R>, t: nat)
    requires Inv(s) && t < |s.jobs| && s.slots != []
    ensures NoFarther(s, s, t)
  {
  }

  lemma {:induction false} AtNoFarther<R>(s: State<R>, run: nat -> Event<R>, n: nat, m: nat, t: nat)
    requires Inv(s) && n <= m && t < |StateAt(s, run, n).jobs| && StateAt(s, run, n).slots != []
    ensures NoFarther(StateAt(s, run, n), StateAt(s, run, m), t)
    decreases m - n
  {
    hide StateAt, Step, NoFarther, Inv;
    HasTickets(s);
    if n < m {
      AtNoFarther(s, run, n, m - 1, t);
      AtKeeps(s, run, m - 1);
      AtNext(s, run, m - 1);
      OneStepOn(StateAt(s, run, n), StateAt(s, run, m - 1), run(m - 1), t);
    } else {
      AtKeeps(s, run, n);
      NoFartherHere(StateAt(s, run, n), t);
    }
  }

  // A held job is settled at the latest by the reply of its worker.
  lemma ReplySettles<R>(s: State<R>, run: nat -> Event<R>, n: nat, m: nat, i: nat)
    requires Inv(s) && n <= m && i < |StateAt(s, run, n).slots| && StateAt(s, run, n).slots[i].current.Some?
    requires var slot := StateAt(s, run, n).slots[i];
             Replies(s, run, m, slot.worker, slot.current.value.job.id)
    ensures SettledAt(StateAt(s, run, m + 1), StateAt(s, run, n).slots[i].current.value.ticket)
  {
    var first, now, next := StateAt(s, run, n), StateAt(s, run, m), StateAt(s, run, m + 1);
    var w, p := first.slots[i].worker, first.slots[i].current.value;
    AtKeeps(s, run, n);
    AtKeeps(s, run, m);
    AtFollows(s, run, n, m);
    StepEffect(now, run(m));
    assert Later(first.fates[p.ticket], now.fates[p.ticket]);
    assert Later(now.fates[p.ticket], next.fates[p.ticket]);
    if !now.fates[p.ticket].Settled? {
      HeldAnswers(now, run(m), w, p);
      assert Moves(now, run(m), next, p.ticket);
    }
  }

  lemma HeldAnswers<R>(s: State<R>, e: Event<R>, w: nat, p: Pending)
    requires Inv(s) && p.ticket < |s.jobs| && s.jobs[p.ticket] == p.job && s.fates[p.ticket] == Running(w)
    requires !Live(s, w) || (e.Answer? && e.worker == w && e.id == p.job.id)
    ensures Answers(s, e, p.ticket)
  {
    var j: nat :| InSlot(s, j, p.ticket) && s.slots[j].worker == w;
    assert Live(s, w);
    assert SlotOf(s, w) == j;
  }

  // A worker is awake at the latest when it says so.
  lemma WakeIsAwake<R>(s: State<R>, run: nat -> Event<R>, m: nat, w: nat)
    requires Inv(s) && Wakes(s, run, m, w)
    ensures w !in Asleep(StateAt(s, run, m + 1))
  {
    var now, next := StateAt(s, run, m), StateAt(s, run, m + 1);
    AtKeeps(s, run, m);
    if Live(now, w) {
      ReadyAsleep(now, w);
    } else {
      StepEffect(now, run(m));
      assert !Live(next, w);
    }
  }

  // An unsettled job waits for a worker to get ready, if no worker holds it or one before it.
  lemma WaitsForWaking<R>(s: State<R>, t: nat)
    requires Inv(s) && t < |s.jobs| && !s.fates[t].Settled? && s.slots != []
    requires forall i :: 0 <= i < |s.slots| && s.slots[i].current.Some? ==> s.slots[i].current.value.ticket > t
    ensures !s.slots[0].ready
  {
    Places(s, t);
  }

  ghost function Distance<R>(s: State<R>, t: nat): nat {
    |Before(s, t)| + |Asleep(s)|
  }

  lemma Nearer<R>(s: State<R>, r: State<R>, t: nat)
    requires NoFarther(s, r, t) && !r.fates[t].Settled?
    requires (exists u :: u in Before(s, t) && u !in Before(r, t)) || (exists w :: w in Asleep(s) && w !in Asleep(r))
    ensures Distance(r, t) < Distance(s, t)
  {
    SubsetSize(Before(r, t), Before(s, t));
    SubsetSize(Asleep(r), Asleep(s));
    if u :| u in Before(s, t) && u !in Before(r, t) {
      SubsetSize(Before(r, t), Before(s, t) - {u});
    } else {
      var w :| w in Asleep(s) && w !in Asleep(r);
      SubsetSize(Asleep(r), Asleep(s) - {w});
    }
  }

  // Job `t` is settled, or nearer to it than it was.
  ghost predicate Gained<R>(s: State<R>, r: State<R>, t: nat) {
    NoFarther(s, r, t) && (r.fates[t].Settled? || Distance(r, t) < Distance(s, t))
  }

  lemma NearerByReply<R>(s: State<R>, run: nat -> Event<R>, n: nat, reply: nat, i: nat, t: nat)
    requires Inv(s) && n <= reply && i < |StateAt(s, run, n).slots| && StateAt(s, run, n).slots[i].current.Some?
    requires var slot := StateAt(s, run, n).slots[i];
             Replies(s, run, reply, slot.worker, slot.current.value.job.id) && slot.current.value.ticket <= t
    requires t < |StateAt(s, run, n).jobs|
    ensures Gained(StateAt(s, run, n), StateAt(s, run, reply + 1), t)
  {
    hide StateAt, Step, Replies, NoFarther;
    var first, next := StateAt(s, run, n), StateAt(s, run, reply + 1);
    var u := first.slots[i].current.value.ticket;
    AtKeeps(s, run, n);
    ReplySettles(s, run, n, reply, i);
    AtNoFarther(s, run, n, reply + 1, t);
    HeldIsBefore(first, i, t);
    assert u in Before(first, t) && u !in Before(next, t);
    NearerIf(first, next, t);
  }

  lemma HeldIsBefore<R>(s: State<R>, i: nat, t: nat)
    requires Inv(s) && i < |s.slots| && s.slots[i].current.Some? && s.slots[i].current.value.ticket <= t
    ensures s.slots[i].current.value.ticket in Before(s, t)
  {
  }

  lemma NearerByWaking<R>(s: State<R>, run: nat -> Event<R>, n: nat, wake: nat, t: nat)
    requires Inv(s) && n <= wake && StateAt(s, run, n).slots != [] && !StateAt(s, run, n).slots[0].ready
    requires Wakes(s, run, wake, StateAt(s, run, n).slots[0].worker) && t < |StateAt(s, run, n).jobs|
    ensures Gained(StateAt(s, run, n), StateAt(s, run, wake + 1), t)
  {
    hide StateAt, Step, Wakes, NoFarther;
    var first, next := StateAt(s, run, n), StateAt(s, run, wake + 1);
    var w := first.slots[0].worker;
    WakeIsAwake(s, run, wake, w);
    AtNoFarther(s, run, n, wake + 1, t);
    assert w in Asleep(first) && w !in Asleep(next);
    NearerIf(first, next, t);
  }

  lemma NearerIf<R>(s: State<R>, r: State<R>, t: nat)
    requires NoFarther(s, r, t)
    requires (exists u :: u in Before(s, t) && u !in Before(r, t)) || (exists w :: w in Asleep(s) && w !in Asleep(r))
    ensures Gained(s, r, t)
  {
    if !r.fates[t].Settled? {
      Nearer(s, r, t);
    }
  }

  // A later moment at which job `t` is settled or nearer to it.
  lemma GetsNearer<R>(s: State<R>, run: nat -> Event<R>, n: nat, t: nat) returns (m: nat)
    requires Inv(s) && Fair(s, run) && t < |StateAt(s, run, n).jobs| && StateAt(s, run, n).slots != []
    requires t < |StateAt(s, run, n).fates| && !SettledAt(StateAt(s, run, n), t)
    ensures n <= m && Gained(StateAt(s, run, n), StateAt(s, run, m), t)
  {
    hide StateAt, Step, Wakes, Replies, Gained, Inv;
    HasTickets(s);
    var first := StateAt(s, run, n);
    AtKeeps(s, run, n);
    if i: nat :| i < |first.slots| && first.slots[i].current.Some? && first.slots[i].current.value.ticket <= t {
      var reply: nat :| n <= reply && Replies(s, run, reply, first.slots[i].worker, first.slots[i].current.value.job.id);
      NearerByReply(s, run, n, reply, i, t);
      m := reply + 1;
    } else {
      WaitsForWaking(first, t);
      var wake: nat :| n <= wake && Wakes(s, run, wake, first.slots[0].worker);
      NearerByWaking(s, run, n, wake, t);
      m := wake + 1;
    }
  }

  /** In every fair run, whatever calls keep coming and whichever workers die, each job that is accepted
      while a worker lives is settled. */
  lemma {:induction false} EveryFairRunSettles<R>(s: State<R>, run: nat -> Event<R>, n: nat, t: nat)
    requires Inv(s) && Fair(s, run) && t < |StateAt(s, run, n).jobs| && StateAt(s, run, n).slots != []
    ensures exists m: nat :: n <= m && SettledAt(StateAt(s, run, m), t)
    decreases Distance(StateAt(s, run, n), t)
  {
    hide StateAt, Step, Fair, Inv, Distance;
    HasTickets(s);
    AtKeeps(s, run, n);
    if SettledAt(StateAt(s, run, n), t) {
    } else {
      var m := GetsNearer(s, run, n, t);
      if !SettledAt(StateAt(s, run, m), t) {
        EveryFairRunSettles(s, run, m, t);
      }
    }
  }
}
