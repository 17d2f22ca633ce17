/** The paged backfill: pages are collected from the tip back to the cursor, then replayed oldest
    first, while the chain keeps growing. */
module Backfill {
  import opened Common

  datatype SignatureInfo = SignatureInfo(signature: Signature, slot: nat)

  // How the pass ended: at the tip, before a transaction the node does not serve, or at a handler
  // that threw.
  datatype End = AtTip | NotServed | Threw

  /** The node: the program's history, oldest first, of which request number `i` sees the first
      `tip(i)` entries; which transactions it serves, and which of them the handler rejects. */
  datatype Node = Node(
    history: seq<SignatureInfo>, tip: nat -> nat, served: Signature -> bool, throws: Signature -> bool)

  ghost predicate Grows(node: Node) {
    && (forall i, j :: 0 <= i < j < |node.history| ==> node.history[i].signature != node.history[j].signature)
    && (forall i: nat :: node.tip(i) <= |node.history|)
    && (forall i: nat, j: nat :: i <= j ==> node.tip(i) <= node.tip(j))
  }

  // The place of a signature, or the length of the list.
  function Place(list: seq<SignatureInfo>, sig: Signature): (n: nat)
    ensures n <= |list|
    ensures n < |list| ==> list[n].signature == sig
    ensures forall i :: 0 <= i < n ==> list[i].signature != sig
  {
    if list == [] || list[0].signature == sig then 0 else 1 + Place(list[1..], sig)
  }

  // Where a listing that stops at `until` begins: right after it, or at genesis if it is unknown.
  function From(list: seq<SignatureInfo>, until: Option<Signature>): (n: nat)
    ensures n <= |list|
  {
    if until.None? then 0
    else if Place(list, until.value) < |list| then Place(list, until.value) + 1 else 0
  }

  function Reverse<T>(s: seq<T>): seq<T> {
    seq(|s|, i requires 0 <= i < |s| => s[|s| - 1 - i])
  }

  // `getSignaturesForAddress`: newest first, strictly before `before`, strictly after `until`.
  function Signatures(list: seq<SignatureInfo>, before: Option<Signature>, until: Option<Signature>, limit: nat): seq<SignatureInfo> {
    var end := if before.None? then |list| else Place(list, before.value);
    var from := From(list, until);
    if end <= from then [] else Reverse(list[Max(from, end - limit)..end])
  }

  // What a pass has to replay: the history after the cursor, as it stood at the first request.
  function Due(node: Node, since: Option<Signature>): seq<SignatureInfo>
    requires node.tip(0) <= |node.history|
  {
    var list := node.history[..node.tip(0)];
    list[From(list, since)..]
  }

  // How far a replay gets, and how it ends.
  function ReplayOf(node: Node, due: seq<SignatureInfo>): (seq<SignatureInfo>, End) {
    if due == [] then ([], AtTip)
    else if !node.served(due[0].signature) then ([], NotServed)
    else if node.throws(due[0].signature) then ([due[0]], Threw)
    else Prepend([due[0]], ReplayOf(node, due[1..]))
  }

  function Prepend(handled: seq<SignatureInfo>, rest: (seq<SignatureInfo>, End)): (seq<SignatureInfo>, End) {
    (handled + rest.0, rest.1)
  }

  lemma PlaceIsUnique(list: seq<SignatureInfo>, n: nat)
    requires n < |list| && forall i, j :: 0 <= i < j < |list| ==> list[i].signature != list[j].signature
    ensures Place(list, list[n].signature) == n
  {
  }

  // The cursor is in the history, but the node did not know of it yet at the first request.
  predicate Beyond(node: Node, since: Option<Signature>) {
    since.Some? && node.tip(0) <= Place(node.history, since.value) < |node.history|
  }

  lemma PlaceInPrefix(list: seq<SignatureInfo>, sig: Signature, n: nat)
    requires n <= |list|
    ensures Place(list[..n], sig) == Min(Place(list, sig), n)
  {
    var p, q := Place(list, sig), Place(list[..n], sig);
    assert q < n ==> list[..n][q].signature == sig;
    assert p < n ==> list[..n][p].signature == sig;
  }

  // Where a listing begins at any later request: where the first one did, unless the node learns of
  // the cursor meanwhile; then it begins behind everything the first one held.
  lemma FromLater(node: Node, since: Option<Signature>, request: nat)
    requires Grows(node)
    ensures node.tip(0) <= node.tip(request) <= |node.history|
    ensures var first, now := From(node.history[..node.tip(0)], since), From(node.history[..node.tip(request)], since);
            now == first || (Beyond(node, since) && node.tip(0) < now)
  {
    assert node.tip(0) <= node.tip(request);
    if since.Some? {
      PlaceInPrefix(node.history, since.value, node.tip(request));
      PlaceInPrefix(node.history, since.value, node.tip(0));
    }
  }

  lemma PrependNothing(rest: (seq<SignatureInfo>, End))
    ensures Prepend([], rest) == rest
  {
    assert [] + rest.0 == rest.0;
  }

  lemma PrependStop(handled: seq<SignatureInfo>, end: End)
    ensures Prepend(handled, ([], end)) == (handled, end)
  {
    assert handled + [] == handled;
  }

  lemma PrependNext(handled: seq<SignatureInfo>, info: SignatureInfo, rest: (seq<SignatureInfo>, End))
    ensures Prepend(handled, Prepend([info], rest)) == Prepend(handled + [info], rest)
  {
    assert handled + ([info] + rest.0) == (handled + [info]) + rest.0;
  }

  lemma SameSlice(list: seq<SignatureInfo>, n: nat, low: nat, high: nat)
    requires low <= high <= n <= |list|
    ensures list[..n][low..high] == list[low..high]
  {
  }

  // Where the page that comes before an entry of the first listing ends, at any later time.
  lemma PageEnds(node: Node, request: nat, before: Signature, high: nat)
    requires Grows(node) && high < node.tip(0) && before == node.history[high].signature
    ensures Place(node.history[..node.tip(request)], before) == high
  {
    assert node.tip(0) <= node.tip(request);
    PlaceIsUnique(node.history, high);
    PlaceInPrefix(node.history, before, node.tip(request));
  }

  lemma PageIsSlice(list: seq<SignatureInfo>, before: Option<Signature>, since: Option<Signature>, limit: nat, from: nat, high: nat)
    requires From(list, since) == from && high <= |list|
    requires if before.None? then high == |list| else Place(list, before.value) == high
    ensures Signatures(list, before, since, limit) == if high <= from then [] else Reverse(list[Max(from, high - limit)..high])
  {
    hide Reverse, Place, From;
  }

  lemma ReverseNothing(list: seq<SignatureInfo>, n: nat)
    requires n <= |list|
    ensures Reverse(list[n..n]) == []
  {
  }

  // A page requested below an entry of the first listing, at any later time: it goes on downwards, or
  // is empty because the node has learnt of the cursor.
  lemma PageBelow(node: Node, since: Option<Signature>, request: nat, before: Option<Signature>, high: nat, limit: nat)
    requires Grows(node)
    requires From(node.history[..node.tip(0)], since) <= high <= node.tip(0)
    requires if before.None? then request == 0 && high == node.tip(0)
             else high < node.tip(0) && before.value == node.history[high].signature
    ensures var low := Max(From(node.history[..node.tip(0)], since), high - limit);
            var page := Signatures(node.history[..node.tip(request)], before, since, limit);
            page == Reverse(node.history[low..high]) || (Beyond(node, since) && page == [])
  {
    hide Signatures, Place, From, Reverse, Beyond;
    var first, list := From(node.history[..node.tip(0)], since), node.history[..node.tip(request)];
    FromLater(node, since, request);
    if before.Some? {
      PageEnds(node, request, before.value, high);
    }
    PageIsSlice(list, before, since, limit, From(list, since), high);
    SameSlice(node.history, node.tip(request), Max(first, high - limit), high);
    ReverseNothing(node.history, high);
  }

  lemma ReverseJoin<T>(s: seq<T>, low: nat, mid: nat, high: nat)
    requires low <= mid <= high <= |s|
    ensures Reverse(s[mid..high]) + Reverse(s[low..mid]) == Reverse(s[low..high])
  {
  }

  lemma ReverseTwice<T>(s: seq<T>)
    ensures Reverse(Reverse(s)) == s
  {
  }

  lemma ReverseEnds(s: seq<SignatureInfo>, low: nat, high: nat, page: seq<SignatureInfo>)
    requires low <= high <= |s| && page == Reverse(s[low..high])
    ensures |page| == high - low && (page != [] ==> page[|page| - 1] == s[low])
  {
  }

  // What the pages come to: everything due, newest first; of a cursor beyond the first listing perhaps
  // only the newest part, of what all lies before that cursor.
  ghost predicate Collected(node: Node, since: Option<Signature>, k: nat, pending: seq<SignatureInfo>)
    requires node.tip(0) <= |node.history|
  {
    k <= |Due(node, since)| && pending == Reverse(Due(node, since)[k..]) && (k > 0 ==> Beyond(node, since))
  }

  lemma CollectedFrom(node: Node, since: Option<Signature>, low: nat, pending: seq<SignatureInfo>)
    requires Grows(node) && From(node.history[..node.tip(0)], since) <= low <= node.tip(0) <= |node.history|
    requires low > From(node.history[..node.tip(0)], since) ==> Beyond(node, since)
    requires pending == Reverse(node.history[low..node.tip(0)])
    ensures Collected(node, since, low - From(node.history[..node.tip(0)], since), pending)
  {
    var from := From(node.history[..node.tip(0)], since);
    assert Due(node, since)[low - from..] == node.history[low..node.tip(0)];
  }

  // The paging loop, whatever the page size and however the tip grows between two requests.
  method CollectPages(node: Node, since: Option<Signature>, pageSize: nat) returns (pending: seq<SignatureInfo>)
    requires Grows(node)
    ensures node.tip(0) <= |node.history|
    ensures pageSize >= 1 ==> exists k: nat :: Collected(node, since, k, pending)
    ensures pageSize == 0 ==> pending == []
  {
    hide Signatures, Place, From;
    pending := [];
    var before: Option<Signature> := None;
    var request := 0;
    ghost var from, tip := From(node.history[..node.tip(0)], since), node.tip(0);
    ghost var low := tip;
    while true
      invariant from <= low <= tip <= |node.history|
      invariant pending == Reverse(node.history[low..tip])
      invariant if before.None? then request == 0 && low == tip
                else low < tip && before.value == node.history[low].signature
      invariant pageSize == 0 ==> low == tip
      decreases low - from, before.None?
    {
      var page := Signatures(node.history[..node.tip(request)], before, since, pageSize);
      ghost var high := low;
      PageBelow(node, since, request, before, high, pageSize);
      low := if page == [] then high else Max(from, high - pageSize);
      ReverseEnds(node.history, Max(from, high - pageSize), high, Reverse(node.history[Max(from, high - pageSize)..high]));
      ReverseJoin(node.history, low, high, tip);
      pending := pending + page;
      request := request + 1;
      if |page| < pageSize || page == [] { break; }
      before := Some(page[|page| - 1].signature);
    }
    if pageSize >= 1 {
      CollectedFrom(node, since, low, pending);
    }
  }

  /** What the pages leave out lies before the cursor: a pass misses nothing that comes after it. */
  lemma LeftOutIsBehind(node: Node, since: Option<Signature>, k: nat, pending: seq<SignatureInfo>, j: nat)
    requires Grows(node) && node.tip(0) <= |node.history| && Collected(node, since, k, pending) && j < k
    ensures since.Some?
    ensures Place(node.history, Due(node, since)[j].signature) < Place(node.history, since.value) < |node.history|
  {
    var list := node.history[..node.tip(0)];
    var n := From(list, since) + j;
    assert Due(node, since)[j] == list[n] == node.history[n];
    PlaceIsUnique(node.history, n);
  }

  method ReplayOldestFirst(node: Node, pending: seq<SignatureInfo>)
    returns (handled: seq<SignatureInfo>, latest: Option<SignatureInfo>, end: End)
    ensures (handled, end) == ReplayOf(node, Reverse(pending))
    ensures end != Threw ==> latest == if handled == [] then None else Some(handled[|handled| - 1])
  {
    var due := Reverse(pending);
    latest := None;
    handled := [];
    assert due[0..] == due;
    PrependNothing(ReplayOf(node, due));
    for i := 0 to |due|
      invariant handled == due[..i]
      invariant latest == if i == 0 then None else Some(due[i - 1])
      invariant ReplayOf(node, due) == Prepend(handled, ReplayOf(node, due[i..]))
    {
      var info := due[i];
      PrependNext(handled, info, ReplayOf(node, due[i + 1..]));
      assert due[i..][0] == info && due[i..][1..] == due[i + 1..];
      if !node.served(info.signature) {
        PrependStop(handled, NotServed);
        return handled, latest, NotServed;
      }
      handled := handled + [info];
      if node.throws(info.signature) {
        return handled, latest, Threw;
      }
      latest := Some(info);
    }
    PrependStop(handled, AtTip);
    end := AtTip;
  }

  /** One pass: it hands over, oldest first, what was in the history after the cursor at its first
      request, up to the first transaction the node does not serve; `latest` is the last of them. Of a
      cursor the node did not know at first, it may leave out the oldest part. */
  method Pass(node: Node, since: Option<Signature>, pageSize: nat)
    returns (handled: seq<SignatureInfo>, latest: Option<SignatureInfo>, end: End)
    requires Grows(node)
    ensures node.tip(0) <= |node.history|
    ensures pageSize >= 1 ==>
              exists k: nat :: k <= |Due(node, since)| && (handled, end) == ReplayOf(node, Due(node, since)[k..])
                               && (k > 0 ==> Beyond(node, since))
    ensures pageSize == 0 ==> handled == [] && end == AtTip
    ensures end != Threw ==> latest == if handled == [] then None else Some(handled[|handled| - 1])
  {
    var pending := CollectPages(node, since, pageSize);
    handled, latest, end := ReplayOldestFirst(node, pending);
    if pageSize >= 1 {
      ghost var k: nat :| Collected(node, since, k, pending);
      ReverseTwice(Due(node, since)[k..]);
    }
  }

  /** What a replay hands over: the longest served prefix of what is due, cut after the first
      transaction whose handler throws. */
  lemma {:induction false} ReplayIsPrefix(node: Node, due: seq<SignatureInfo>)
    ensures var (handled, end) := ReplayOf(node, due);
            var n := |handled|;
            && n <= |due| && handled == due[..n]
            && (forall i :: 0 <= i < n ==> node.served(due[i].signature))
            && (forall i :: 0 <= i < n - 1 ==> !node.throws(due[i].signature))
            && (end == AtTip <==> n == |due| && (n > 0 ==> !node.throws(due[n - 1].signature)))
            && (end == NotServed ==> n < |due| && !node.served(due[n].signature))
            && (end == Threw <==> n > 0 && node.throws(due[n - 1].signature))
    decreases |due|
  {
    if due != [] && node.served(due[0].signature) && !node.throws(due[0].signature) {
      ReplayIsPrefix(node, due[1..]);
      var handled := ReplayOf(node, due).0;
      assert handled[1..] == ReplayOf(node, due[1..]).0;
      assert forall i :: 0 < i < |due| ==> due[i] == due[1..][i - 1];
    }
  }

  lemma ReplayOfSlice(node: Node, list: seq<SignatureInfo>, from: nat, to: nat)
    requires from <= to <= |list|
    ensures var handled := ReplayOf(node, list[from..to]).0;
            && from + |handled| <= |list|
            && forall i :: 0 <= i < |handled| ==> handled[i] == list[from + i]
  {
    ReplayIsPrefix(node, list[from..to]);
  }
}
