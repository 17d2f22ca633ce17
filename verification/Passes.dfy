/** How a process is fed: by backfill passes, each from its cursor in memory, and by notifications that
    may fall anywhere between. */
module Passes {
  import opened Common
  import opened Runs
  import opened Ledger
  import opened Indexer
  import opened History
  import opened Feeding
  import Backfill

  function Handed(info: Backfill.SignatureInfo, ok: bool, saved: bool): Arrival {
    Arrival(info.signature, info.slot, ok, saved)
  }

  // The arrivals a pass pushes: `ok` says which handlers succeed, `saved` which cursor saves do.
  function Pushed(handled: seq<Backfill.SignatureInfo>, ok: nat -> bool, saved: nat -> bool): seq<Arrival> {
    seq(|handled|, i requires 0 <= i < |handled| => Handed(handled[i], ok(i), saved(i)))
  }

  // No handler succeeds after one that failed.
  ghost predicate InTime(ok: nat -> bool, n: nat) {
    forall i: nat, j: nat :: i < j < n && ok(j) ==> ok(i)
  }

  // How many handlers of the first `n` succeed before one fails.
  function Leading(ok: nat -> bool, n: nat): (m: nat)
    ensures m <= n
  {
    if n == 0 then 0 else if Leading(ok, n - 1) == n - 1 && ok(n - 1) then n else Leading(ok, n - 1)
  }

  lemma {:induction false} LeadingIs(ok: nat -> bool, n: nat)
    ensures Leading(ok, n) == n <==> forall i: nat :: i < n ==> ok(i)
  {
    if n > 0 {
      LeadingIs(ok, n - 1);
    }
  }

  lemma InTimeNext(ok: nat -> bool, n: nat)
    ensures InTime(ok, n + 1) <==> InTime(ok, n) && (ok(n) ==> Leading(ok, n) == n)
  {
    LeadingIs(ok, n);
  }

  // What a pass hands over: a stretch of the history, oldest first.
  ghost predicate HandedFrom(history: seq<Tx>, from: nat, handled: seq<Backfill.SignatureInfo>) {
    && from + |handled| <= |history|
    && forall i :: 0 <= i < |handled| ==> handled[i] == Listed(history)[from + i]
  }

  lemma PushedNothing(handled: seq<Backfill.SignatureInfo>, ok: nat -> bool, saved: nat -> bool, before: seq<Arrival>)
    ensures before + Pushed(handled[..0], ok, saved) == before
  {
  }

  lemma PushedMore(handled: seq<Backfill.SignatureInfo>, ok: nat -> bool, saved: nat -> bool, before: seq<Arrival>, k: nat)
    requires k < |handled|
    ensures before + Pushed(handled[..k + 1], ok, saved)
            == before + Pushed(handled[..k], ok, saved) + [Handed(handled[k], ok(k), saved(k))]
  {
    assert Pushed(handled[..k + 1], ok, saved) == Pushed(handled[..k], ok, saved) + [Handed(handled[k], ok(k), saved(k))];
  }

  // The arrival for entry `k` of a pass is the transaction at its place.
  lemma HandedIsOfHistory(history: seq<Tx>, from: nat, handled: seq<Backfill.SignatureInfo>, k: nat, a: Arrival)
    requires DistinctSignatures(history) && HandedFrom(history, from, handled) && k < |handled|
    requires a.signature == handled[k].signature && a.slot == handled[k].slot
    ensures OfHistory(history, a) && PlaceOf(history, a.signature) == from + k && a.signature == history[from + k].signature
  {
    PlaceIs(history, from + k);
  }

  // Part of a pass that starts at the next transaction: fed exactly while no success follows a failure,
  // and then the cursor stands behind the leading successes.
  ghost predicate AheadSoFar(history: seq<Tx>, cursor: Option<Cursor>, all: seq<Arrival>, from: nat, ok: nat -> bool, k: nat) {
    && (Feeds(history, cursor, all) <==> InTime(ok, k))
    && (Feeds(history, cursor, all) ==> Resume(history, Indexer.Run(cursor, all).cursor) == from + Leading(ok, k))
  }

  lemma AheadAtFirst(history: seq<Tx>, cursor: Option<Cursor>, before: seq<Arrival>, ok: nat -> bool)
    requires Feeds(history, cursor, before)
    ensures AheadSoFar(history, cursor, before, Resume(history, Indexer.Run(cursor, before).cursor), ok, 0)
  {
  }

  lemma AheadStep(history: seq<Tx>, cursor: Option<Cursor>, all: seq<Arrival>, from: nat, ok: nat -> bool, k: nat, a: Arrival)
    requires Confirmed(history) && PointsInto(history, cursor) && AheadSoFar(history, cursor, all, from, ok, k)
    requires Resume(history, cursor) <= from && OfHistory(history, a) && PlaceOf(history, a.signature) == from + k && a.handled == ok(k)
    ensures AheadSoFar(history, cursor, all + [a], from, ok, k + 1)
  {
    hide Indexer.Run, Feeds, Welcome, InTime, AppliedOf, PointsInto, PlaceOf;
    InTimeNext(ok, k);
    FeedsMore(history, cursor, all, a);
    if Feeds(history, cursor, all) {
      WelcomeIffPlace(history, cursor, all, a);
      if Welcome(history, cursor, all, a) {
        FedStep(history, cursor, all, a);
        NextByPlace(history, Indexer.Run(cursor, all).cursor, a.signature);
      }
    }
  }

  lemma {:induction false} AheadFeeds(history: seq<Tx>, cursor: Option<Cursor>, before: seq<Arrival>,
                                      handled: seq<Backfill.SignatureInfo>, ok: nat -> bool, saved: nat -> bool, k: nat)
    requires Confirmed(history) && PointsInto(history, cursor) && Feeds(history, cursor, before) && k <= |handled|
    requires HandedFrom(history, Resume(history, Indexer.Run(cursor, before).cursor), handled)
    ensures AheadSoFar(history, cursor, before + Pushed(handled[..k], ok, saved),
                       Resume(history, Indexer.Run(cursor, before).cursor), ok, k)
    decreases k
  {
    hide Indexer.Run, Feeds, AppliedOf, PointsInto, Pushed, Confirmed, Listed, AheadSoFar;
    var from := Resume(history, Indexer.Run(cursor, before).cursor);
    ConfirmedIsDistinct(history);
    if k == 0 {
      PushedNothing(handled, ok, saved, before);
      AheadAtFirst(history, cursor, before, ok);
    } else {
      var a := Handed(handled[k - 1], ok(k - 1), saved(k - 1));
      AheadFeeds(history, cursor, before, handled, ok, saved, k - 1);
      HandedIsOfHistory(history, from, handled, k - 1, a);
      StandsFrom(history, cursor, before);
      PushedMore(handled, ok, saved, before, k - 1);
      AheadStep(history, cursor, before + Pushed(handled[..k - 1], ok, saved), from, ok, k - 1, a);
    }
  }

  // A success in the cursor's slot that the process does not know again.
  predicate IsStranger(cursor: Option<Cursor>, before: seq<Arrival>, info: Backfill.SignatureInfo, ok: bool) {
    var now := Indexer.Run(cursor, before).cursor;
    ok && now.Some? && info.slot == now.value.slot && info.signature !in Log(cursor, before)
  }

  ghost predicate NoStranger(cursor: Option<Cursor>, before: seq<Arrival>, handled: seq<Backfill.SignatureInfo>, ok: nat -> bool,
                             k: nat)
    requires k <= |handled|
  {
    forall i: nat :: i < k ==> !IsStranger(cursor, before, handled[i], ok(i))
  }

  // Part of a pass that lies before the cursor: fed exactly while it brings no stranger, and then
  // nothing has happened.
  ghost predicate BehindSoFar(history: seq<Tx>, cursor: Option<Cursor>, before: seq<Arrival>, all: seq<Arrival>,
                              handled: seq<Backfill.SignatureInfo>, ok: nat -> bool, k: nat)
    requires k <= |handled|
  {
    && (Feeds(history, cursor, all) <==> NoStranger(cursor, before, handled, ok, k))
    && (Feeds(history, cursor, all) ==>
          && AppliedOf(cursor, all) == AppliedOf(cursor, before)
          && Indexer.Run(cursor, all).cursor == Indexer.Run(cursor, before).cursor)
  }

  lemma BehindAtFirst(history: seq<Tx>, cursor: Option<Cursor>, before: seq<Arrival>, handled: seq<Backfill.SignatureInfo>,
                      ok: nat -> bool)
    requires Feeds(history, cursor, before)
    ensures BehindSoFar(history, cursor, before, before, handled, ok, 0)
  {
  }

  // What lies before the cursor is welcome unless it is a stranger.
  lemma BehindIsWelcome(history: seq<Tx>, cursor: Option<Cursor>, before: seq<Arrival>, all: seq<Arrival>,
                        info: Backfill.SignatureInfo, a: Arrival)
    requires Confirmed(history) && PointsInto(history, Indexer.Run(cursor, before).cursor) && OfHistory(history, a)
    requires a.signature == info.signature && a.slot == info.slot
    requires PlaceOf(history, a.signature) < Resume(history, Indexer.Run(cursor, before).cursor)
    requires AppliedOf(cursor, all) == AppliedOf(cursor, before)
    requires Indexer.Run(cursor, all).cursor == Indexer.Run(cursor, before).cursor
    ensures Welcome(history, cursor, all, a) <==> !IsStranger(cursor, before, info, a.handled)
  {
    hide Indexer.Run, AppliedOf;
    var now := Indexer.Run(cursor, before).cursor;
    NextByPlace(history, now, a.signature);
    SlotsFollowPlaces(history, PlaceOf(history, a.signature), PlaceOf(history, now.value.signature));
  }

  lemma StrangerNext(cursor: Option<Cursor>, before: seq<Arrival>, handled: seq<Backfill.SignatureInfo>, ok: nat -> bool, k: nat)
    requires k < |handled|
    ensures NoStranger(cursor, before, handled, ok, k + 1)
            <==> NoStranger(cursor, before, handled, ok, k) && !IsStranger(cursor, before, handled[k], ok(k))
  {
    hide IsStranger;
  }

  lemma BehindStep(history: seq<Tx>, cursor: Option<Cursor>, before: seq<Arrival>, all: seq<Arrival>,
                   handled: seq<Backfill.SignatureInfo>, ok: nat -> bool, k: nat, a: Arrival)
    requires Confirmed(history) && PointsInto(history, cursor) && Feeds(history, cursor, before) && k < |handled|
    requires BehindSoFar(history, cursor, before, all, handled, ok, k)
    requires OfHistory(history, a) && a.signature == handled[k].signature && a.slot == handled[k].slot && a.handled == ok(k)
    requires PlaceOf(history, a.signature) < Resume(history, Indexer.Run(cursor, before).cursor)
    ensures BehindSoFar(history, cursor, before, all + [a], handled, ok, k + 1)
  {
    hide Indexer.Run, Feeds, Welcome, AppliedOf, IsStranger, NoStranger, PointsInto, PlaceOf;
    StrangerNext(cursor, before, handled, ok, k);
    FeedsMore(history, cursor, all, a);
    StandsFrom(history, cursor, before);
    if Feeds(history, cursor, all) {
      BehindIsWelcome(history, cursor, before, all, handled[k], a);
      if Welcome(history, cursor, all, a) {
        FedStep(history, cursor, all, a);
        NextByPlace(history, Indexer.Run(cursor, all).cursor, a.signature);
      }
    }
  }

  lemma {:induction false} BehindFeeds(history: seq<Tx>, cursor: Option<Cursor>, before: seq<Arrival>, from: nat,
                                       handled: seq<Backfill.SignatureInfo>, ok: nat -> bool, saved: nat -> bool, k: nat)
    requires Confirmed(history) && PointsInto(history, cursor) && Feeds(history, cursor, before) && k <= |handled|
    requires HandedFrom(history, from, handled) && from + |handled| < Resume(history, Indexer.Run(cursor, before).cursor)
    ensures BehindSoFar(history, cursor, before, before + Pushed(handled[..k], ok, saved), handled, ok, k)
    decreases k
  {
    hide Indexer.Run, Feeds, AppliedOf, PointsInto, Pushed, IsStranger, BehindSoFar, Confirmed, Listed;
    ConfirmedIsDistinct(history);
    if k == 0 {
      PushedNothing(handled, ok, saved, before);
      BehindAtFirst(history, cursor, before, handled, ok);
    } else {
      var a := Handed(handled[k - 1], ok(k - 1), saved(k - 1));
      BehindFeeds(history, cursor, before, from, handled, ok, saved, k - 1);
      HandedIsOfHistory(history, from, handled, k - 1, a);
      PushedMore(handled, ok, saved, before, k - 1);
      BehindStep(history, cursor, before, before + Pushed(handled[..k - 1], ok, saved), handled, ok, k - 1, a);
    }
  }

  // What a pass has due when the node has not reached the cursor: everything it lists.
  lemma DueOfBehind(history: seq<Tx>, now: Option<Cursor>, node: Backfill.Node)
    requires PointsInto(history, now) && node.history == Listed(history) && Backfill.Grows(node)
    requires node.tip(0) < Resume(history, now)
    ensures Backfill.Due(node, Since(now)) == node.history[0..node.tip(0)]
  {
    Backfill.PlaceInPrefix(node.history, now.value.signature, node.tip(0));
    assert node.history[..node.tip(0)][0..] == node.history[0..node.tip(0)];
  }

  // What a process with this cursor is handed by a pass that leaves out the oldest `k` of what is due.
  function PassOf(now: Option<Cursor>, node: Backfill.Node, k: nat): seq<Backfill.SignatureInfo>
    requires node.tip(0) <= |node.history| && k <= |Backfill.Due(node, Since(now))|
  {
    Backfill.ReplayOf(node, Backfill.Due(node, Since(now))[k..]).0
  }

  // As `Backfill.Pass` has it: only of a cursor the node did not know at first may something be left out.
  ghost predicate Begins(history: seq<Tx>, now: Option<Cursor>, node: Backfill.Node, k: nat) {
    && node.history == Listed(history) && Backfill.Grows(node) && node.tip(0) <= |node.history|
    && k <= |Backfill.Due(node, Since(now))| && (k > 0 ==> Backfill.Beyond(node, Since(now)))
  }

  lemma SliceHandsOn(history: seq<Tx>, node: Backfill.Node, from: nat, due: seq<Backfill.SignatureInfo>)
    requires node.history == Listed(history) && from <= node.tip(0) <= |history|
    requires due == node.history[from..node.tip(0)]
    ensures HandedFrom(history, from, Backfill.ReplayOf(node, due).0)
    ensures from + |Backfill.ReplayOf(node, due).0| <= node.tip(0)
  {
    Backfill.ReplayOfSlice(node, node.history, from, node.tip(0));
    Backfill.ReplayIsPrefix(node, due);
  }

  lemma PassHandsOn(history: seq<Tx>, now: Option<Cursor>, node: Backfill.Node, k: nat)
    requires PointsInto(history, now) && Begins(history, now, node, k)
    ensures var handled := PassOf(now, node, k);
            if Resume(history, now) <= node.tip(0) then k == 0 && HandedFrom(history, Resume(history, now), handled)
            else HandedFrom(history, k, handled) && k + |handled| <= node.tip(0)
  {
    hide HandedFrom, Backfill.ReplayOf;
    var due := Backfill.Due(node, Since(now));
    if Resume(history, now) <= node.tip(0) {
      DueIsTheRest(history, now, node);
      assert due[0..] == due;
      SliceHandsOn(history, node, Resume(history, now), due);
    } else {
      DueOfBehind(history, now, node);
      assert due[k..] == node.history[k..node.tip(0)];
      SliceHandsOn(history, node, k, due[k..]);
    }
  }

  /** A backfill pass of a process that was fed so far, however far the node serves it and however the
      chain grows meanwhile. If the node has reached the cursor, the pass leaves no gap exactly when none
      of its handlers succeeds after one that failed. If it has not, the pass lists the chain before the
      cursor, and does no harm exactly when it brings no success in the cursor's slot that this process
      does not know again. */
  lemma PassFeedsIff(history: seq<Tx>, cursor: Option<Cursor>, before: seq<Arrival>, node: Backfill.Node, k: nat,
                     ok: nat -> bool, saved: nat -> bool)
    requires Confirmed(history) && PointsInto(history, cursor) && Feeds(history, cursor, before)
    requires Begins(history, Indexer.Run(cursor, before).cursor, node, k)
    ensures var now := Indexer.Run(cursor, before).cursor;
            var handled := PassOf(now, node, k);
            Feeds(history, cursor, before + Pushed(handled, ok, saved))
            <==> if Resume(history, now) <= node.tip(0) then InTime(ok, |handled|)
                 else NoStranger(cursor, before, handled, ok, |handled|)
  {
    hide Indexer.Run, Feeds, AppliedOf, PassOf, Pushed, Backfill.Due, Backfill.Grows;
    var now := Indexer.Run(cursor, before).cursor;
    var handled := PassOf(now, node, k);
    StandsFrom(history, cursor, before);
    PassHandsOn(history, now, node, k);
    assert handled[..|handled|] == handled;
    if Resume(history, now) <= node.tip(0) {
      AheadFeeds(history, cursor, before, handled, ok, saved, |handled|);
    } else {
      BehindFeeds(history, cursor, before, k, handled, ok, saved, |handled|);
    }
  }

  // Nothing stands in the way of a pass: the node has reached the cursor, serves what it lists, and no
  // handler fails.
  ghost predicate Unhindered(history: seq<Tx>, now: Option<Cursor>, node: Backfill.Node, ok: nat -> bool) {
    && Resume(history, now) <= node.tip(0)
    && (forall i :: 0 <= i < |history| ==> node.served(history[i].signature) && !node.throws(history[i].signature))
    && forall i: nat :: ok(i)
  }

  // A replay that meets no obstacle hands over everything.
  lemma ReplaysAll(node: Backfill.Node, due: seq<Backfill.SignatureInfo>)
    requires forall i :: 0 <= i < |due| ==> node.served(due[i].signature) && !node.throws(due[i].signature)
    ensures |Backfill.ReplayOf(node, due).0| == |due|
  {
    Backfill.ReplayIsPrefix(node, due);
    hide Backfill.ReplayOf;
  }

  lemma NothingHinders(history: seq<Tx>, node: Backfill.Node, from: nat, to: nat)
    requires from <= to <= |history|
    requires forall i :: 0 <= i < |history| ==> node.served(history[i].signature) && !node.throws(history[i].signature)
    ensures var due := Listed(history)[from..to];
            forall i :: 0 <= i < |due| ==> node.served(due[i].signature) && !node.throws(due[i].signature)
  {
    forall i | 0 <= i < to - from ensures Listed(history)[from..to][i].signature == history[from + i].signature {
    }
  }

  // Everything due is handed over.
  lemma HandsOverAll(history: seq<Tx>, now: Option<Cursor>, node: Backfill.Node, k: nat, ok: nat -> bool)
    requires PointsInto(history, now) && Begins(history, now, node, k) && Unhindered(history, now, node, ok)
    ensures Resume(history, now) + |PassOf(now, node, k)| == node.tip(0) <= |history|
  {
    hide Backfill.ReplayOf, Backfill.Due, Backfill.Grows, PlaceOf, Listed, PointsInto, Resume;
    var due := Backfill.Due(node, Since(now));
    DueIsTheRest(history, now, node);
    assert k == 0 && due[0..] == due;
    ListedLength(history);
    NothingHinders(history, node, Resume(history, now), node.tip(0));
    ReplaysAll(node, due);
  }

  lemma ListedLength(history: seq<Tx>)
    ensures |Listed(history)| == |history|
  {
  }

  /** A pass catches up. On a node that has reached the cursor the cursor moves behind the leading
      successes of the pass, and everything up to it has been applied in order; with nothing in the way it
      stands at the tip of the pass. */
  lemma PassCatchesUp(history: seq<Tx>, cursor: Option<Cursor>, before: seq<Arrival>, node: Backfill.Node, k: nat,
                      ok: nat -> bool, saved: nat -> bool)
    requires Confirmed(history) && PointsInto(history, cursor) && Feeds(history, cursor, before)
    requires Begins(history, Indexer.Run(cursor, before).cursor, node, k)
    requires Resume(history, Indexer.Run(cursor, before).cursor) <= node.tip(0)
    ensures var now := Indexer.Run(cursor, before).cursor;
            var handled := PassOf(now, node, k);
            var all := before + Pushed(handled, ok, saved);
            InTime(ok, |handled|) ==>
              && Feeds(history, cursor, all)
              && Resume(history, Indexer.Run(cursor, all).cursor) == Resume(history, now) + Leading(ok, |handled|)
              && Continues(history, Resume(history, cursor), AppliedOf(cursor, all))
              && Resume(history, cursor) + |AppliedOf(cursor, all)| == Resume(history, now) + Leading(ok, |handled|)
    ensures var now := Indexer.Run(cursor, before).cursor;
            Unhindered(history, now, node, ok) ==>
              var all := before + Pushed(PassOf(now, node, k), ok, saved);
              Feeds(history, cursor, all) && Resume(history, Indexer.Run(cursor, all).cursor) == node.tip(0)
  {
    hide Indexer.Run, Feeds, AppliedOf, PassOf, Pushed, Backfill.Due, Backfill.Grows, Continues;
    var now := Indexer.Run(cursor, before).cursor;
    var handled := PassOf(now, node, k);
    StandsFrom(history, cursor, before);
    PassHandsOn(history, now, node, k);
    assert handled[..|handled|] == handled;
    AheadFeeds(history, cursor, before, handled, ok, saved, |handled|);
    if InTime(ok, |handled|) {
      FedLife(history, cursor, before + Pushed(handled, ok, saved));
    }
    if Unhindered(history, now, node, ok) {
      HandsOverAll(history, now, node, k, ok);
      LeadingIs(ok, |handled|);
    }
  }

  /** What happens to a process: a pass begins, hands over its next transaction, or breaks off, and a
      notification comes at any moment. */
  datatype Step = Opens(node: Backfill.Node, k: nat) | Pushes(ok: bool, saved: bool) | Breaks | Hears(arrival: Arrival)

  // What was pushed so far, and what the running pass still has to push.
  datatype Stage = Stage(arrivals: seq<Arrival>, pending: seq<Backfill.SignatureInfo>)

  function Now(cursor: Option<Cursor>, s: Stage): Option<Cursor> { Indexer.Run(cursor, s.arrivals).cursor }

  // Only one pass runs at a time.
  ghost predicate Possible(history: seq<Tx>, cursor: Option<Cursor>, s: Stage, e: Step) {
    match e
    case Opens(node, k) => s.pending == [] && Begins(history, Now(cursor, s), node, k)
    case Pushes(_, _) => s.pending != []
    case Breaks => true
    case Hears(a) => OfHistory(history, a)
  }

  ghost function After(history: seq<Tx>, cursor: Option<Cursor>, s: Stage, e: Step): Stage
    requires Possible(history, cursor, s, e)
  {
    match e
    case Opens(node, k) => s.(pending := PassOf(Now(cursor, s), node, k))
    case Pushes(ok, saved) => Stage(s.arrivals + [Handed(s.pending[0], ok, saved)], s.pending[1..])
    case Breaks => s.(pending := [])
    case Hears(a) => s.(arrivals := s.arrivals + [a])
  }

  // The step pushes nothing, or something welcome.
  ghost predicate IsWelcome(history: seq<Tx>, cursor: Option<Cursor>, s: Stage, e: Step)
    requires Possible(history, cursor, s, e)
  {
    match e
    case Opens(_, _) => true
    case Pushes(ok, saved) => WelcomeAt(history, cursor, Now(cursor, s), Handed(s.pending[0], ok, saved))
    case Breaks => true
    case Hears(a) => WelcomeAt(history, cursor, Now(cursor, s), a)
  }

  // What is pending is a stretch of the history.
  ghost predicate Stretch(history: seq<Tx>, s: Stage) {
    exists from: nat :: HandedFrom(history, from, s.pending)
  }

  lemma StretchKeeps(history: seq<Tx>, cursor: Option<Cursor>, s: Stage, e: Step)
    requires PointsInto(history, Now(cursor, s)) && Stretch(history, s) && Possible(history, cursor, s, e)
    ensures Stretch(history, After(history, cursor, s, e))
  {
    hide Indexer.Run, PassOf, Backfill.Due;
    var from: nat :| HandedFrom(history, from, s.pending);
    match e
    case Opens(node, k) =>
      PassHandsOn(history, Now(cursor, s), node, k);
      assert HandedFrom(history, if Resume(history, Now(cursor, s)) <= node.tip(0) then Resume(history, Now(cursor, s)) else k,
                        PassOf(Now(cursor, s), node, k));
    case Pushes(_, _) => assert HandedFrom(history, from + 1, s.pending[1..]);
    case Breaks => assert HandedFrom(history, 0, []);
    case Hears(_) =>
  }

  lemma StepFedIff(history: seq<Tx>, cursor: Option<Cursor>, s: Stage, e: Step)
    requires Confirmed(history) && PointsInto(history, cursor) && Feeds(history, cursor, s.arrivals)
    requires Stretch(history, s) && Possible(history, cursor, s, e)
    ensures Feeds(history, cursor, After(history, cursor, s, e).arrivals) <==> IsWelcome(history, cursor, s, e)
  {
    hide Indexer.Run, Feeds, Welcome, WelcomeAt, PointsInto, Begins, PassOf;
    match e
    case Opens(_, _) =>
    case Pushes(ok, saved) =>
      var from: nat :| HandedFrom(history, from, s.pending);
      var a := Handed(s.pending[0], ok, saved);
      HandedIsOfHistory(history, from, s.pending, 0, a);
      FeedsMore(history, cursor, s.arrivals, a);
      WelcomeIffPlace(history, cursor, s.arrivals, a);
    case Breaks =>
    case Hears(a) =>
      FeedsMore(history, cursor, s.arrivals, a);
      WelcomeIffPlace(history, cursor, s.arrivals, a);
  }

  lemma NotFedAgain(history: seq<Tx>, cursor: Option<Cursor>, s: Stage, e: Step)
    requires Possible(history, cursor, s, e) && Feeds(history, cursor, After(history, cursor, s, e).arrivals)
    ensures Feeds(history, cursor, s.arrivals)
  {
    match e
    case Opens(_, _) =>
    case Pushes(ok, saved) => FeedsMore(history, cursor, s.arrivals, Handed(s.pending[0], ok, saved));
    case Breaks =>
    case Hears(a) => FeedsMore(history, cursor, s.arrivals, a);
  }

  // The stages of a run: each follows from the one before by its step.
  ghost predicate IsRun(history: seq<Tx>, cursor: Option<Cursor>, stages: seq<Stage>, steps: seq<Step>) {
    && |stages| == |steps| + 1 && stages[0] == Stage([], [])
    && forall i :: 0 <= i < |steps| ==>
         Possible(history, cursor, stages[i], steps[i]) && stages[i + 1] == After(history, cursor, stages[i], steps[i])
  }

  /** Over every run of a process, with passes and notifications falling between each other at will: it
      is fed exactly when every push was welcome where it came. */
  lemma {:induction false} RunFedIff(history: seq<Tx>, cursor: Option<Cursor>, stages: seq<Stage>, steps: seq<Step>, n: nat)
    requires Confirmed(history) && PointsInto(history, cursor) && IsRun(history, cursor, stages, steps) && n <= |steps|
    ensures Feeds(history, cursor, stages[n].arrivals)
            <==> forall i :: 0 <= i < n ==> IsWelcome(history, cursor, stages[i], steps[i])
    ensures Feeds(history, cursor, stages[n].arrivals) ==> Stretch(history, stages[n])
    decreases n
  {
    hide Feeds, Possible, After, IsWelcome, PointsInto;
    if n == 0 {
      NothingYet(history, cursor);
    } else {
      RunFedIff(history, cursor, stages, steps, n - 1);
      var s, e := stages[n - 1], steps[n - 1];
      assert Possible(history, cursor, s, e) && stages[n] == After(history, cursor, s, e);
      if Feeds(history, cursor, s.arrivals) {
        StandsFrom(history, cursor, s.arrivals);
        StretchKeeps(history, cursor, s, e);
        StepFedIff(history, cursor, s, e);
      } else if Feeds(history, cursor, stages[n].arrivals) {
        NotFedAgain(history, cursor, s, e);
      }
    }
  }

  lemma NothingYet(history: seq<Tx>, cursor: Option<Cursor>)
    ensures Feeds(history, cursor, []) && Stretch(history, Stage([], []))
  {
    assert HandedFrom(history, 0, []);
  }

  // What is pending goes on at or before the next transaction.
  ghost predicate InStep(history: seq<Tx>, cursor: Option<Cursor>, s: Stage) {
    exists from: nat :: HandedFrom(history, from, s.pending)
                        && Resume(history, cursor) <= from <= Resume(history, Now(cursor, s))
  }

  // A step that loses nothing: a pass on a node that has reached the cursor, a success or what has been
  // applied already, a welcome notification, a pass breaking off.
  ghost predicate LosesNothing(history: seq<Tx>, cursor: Option<Cursor>, s: Stage, e: Step)
    requires Possible(history, cursor, s, e)
  {
    match e
    case Opens(node, _) => Resume(history, Now(cursor, s)) <= node.tip(0)
    case Pushes(ok, _) => ok || PlaceOf(history, s.pending[0].signature) < Resume(history, Now(cursor, s))
    case Breaks => true
    case Hears(a) => WelcomeAt(history, cursor, Now(cursor, s), a)
  }

  lemma CursorMovesOn(history: seq<Tx>, cursor: Option<Cursor>, before: seq<Arrival>, a: Arrival)
    requires Confirmed(history) && PointsInto(history, cursor) && Feeds(history, cursor, before)
    requires OfHistory(history, a) && Welcome(history, cursor, before, a)
    ensures var now, next := Indexer.Run(cursor, before).cursor, Indexer.Run(cursor, before + [a]).cursor;
            && Resume(history, now) <= Resume(history, next)
            && (a.handled && PlaceOf(history, a.signature) == Resume(history, now) ==>
                  Resume(history, next) == PlaceOf(history, a.signature) + 1)
  {
    hide Indexer.Run, Feeds, Welcome, AppliedOf;
    FedStep(history, cursor, before, a);
    NextByPlace(history, Indexer.Run(cursor, before).cursor, a.signature);
  }

  lemma HandedRest(history: seq<Tx>, from: nat, handled: seq<Backfill.SignatureInfo>)
    requires HandedFrom(history, from, handled) && handled != []
    ensures HandedFrom(history, from + 1, handled[1..])
  {
  }

  lemma PushInStep(history: seq<Tx>, cursor: Option<Cursor>, s: Stage, e: Step)
    requires Confirmed(history) && PointsInto(history, cursor) && Feeds(history, cursor, s.arrivals)
    requires InStep(history, cursor, s) && Possible(history, cursor, s, e) && e.Pushes? && LosesNothing(history, cursor, s, e)
    ensures Feeds(history, cursor, After(history, cursor, s, e).arrivals) && InStep(history, cursor, After(history, cursor, s, e))
  {
    hide Indexer.Run, Feeds, Welcome, PointsInto, AppliedOf, HandedFrom, PlaceOf;
    var from: nat :| HandedFrom(history, from, s.pending)
                     && Resume(history, cursor) <= from <= Resume(history, Now(cursor, s));
    var a := Handed(s.pending[0], e.ok, e.saved);
    HandedIsOfHistory(history, from, s.pending, 0, a);
    FeedsMore(history, cursor, s.arrivals, a);
    WelcomeIffPlace(history, cursor, s.arrivals, a);
    CursorMovesOn(history, cursor, s.arrivals, a);
    HandedRest(history, from, s.pending);
  }

  /** A pass in step with the chain stays so, whatever is heard between its pushes: as long as none of its
      handlers fails on what nobody else has brought, no push of it opens a gap. */
  lemma InStepKeeps(history: seq<Tx>, cursor: Option<Cursor>, s: Stage, e: Step)
    requires Confirmed(history) && PointsInto(history, cursor) && Feeds(history, cursor, s.arrivals)
    requires InStep(history, cursor, s) && Possible(history, cursor, s, e) && LosesNothing(history, cursor, s, e)
    ensures Feeds(history, cursor, After(history, cursor, s, e).arrivals) && InStep(history, cursor, After(history, cursor, s, e))
  {
    hide Indexer.Run, Feeds, Welcome, AppliedOf, PassOf, Backfill.Due;
    StandsFrom(history, cursor, s.arrivals);
    match e
    case Opens(node, k) => PassHandsOn(history, Now(cursor, s), node, k);
    case Pushes(_, _) => PushInStep(history, cursor, s, e);
    case Breaks => assert HandedFrom(history, Resume(history, Now(cursor, s)), []);
    case Hears(a) =>
      FeedsMore(history, cursor, s.arrivals, a);
      WelcomeIffPlace(history, cursor, s.arrivals, a);
      CursorMovesOn(history, cursor, s.arrivals, a);
  }
}
