/** A reader that walks over a list from its start and may jump back, but never skips forward, sees
    the same first and last occurrences as the list itself. */
module Walks {
  import opened Common

  // The first and the last element for which `f` gives something.
  function FirstOf<E, V>(f: E -> Option<V>, s: seq<E>): Option<V> {
    if s == [] then None
    else
      var rest := FirstOf(f, s[..|s| - 1]);
      if rest.Some? then rest else f(s[|s| - 1])
  }

  function LastOf<E, V>(f: E -> Option<V>, s: seq<E>): Option<V> {
    if s == [] then None
    else if f(s[|s| - 1]).Some? then f(s[|s| - 1]) else LastOf(f, s[..|s| - 1])
  }

  lemma FirstOfSnoc<E, V>(f: E -> Option<V>, s: seq<E>, e: E)
    ensures FirstOf(f, s + [e]) == if FirstOf(f, s).Some? then FirstOf(f, s) else f(e)
    ensures LastOf(f, s + [e]) == if f(e).Some? then f(e) else LastOf(f, s)
  {
    assert (s + [e])[..|s|] == s;
  }

  lemma {:induction false} Occurs<E, V>(f: E -> Option<V>, s: seq<E>)
    ensures FirstOf(f, s).Some? <==> LastOf(f, s).Some?
    ensures FirstOf(f, s).Some? <==> exists i :: 0 <= i < |s| && f(s[i]).Some?
    decreases |s|
  {
    if s != [] {
      var init := s[..|s| - 1];
      Occurs(f, init);
      if FirstOf(f, init).Some? {
        var i :| 0 <= i < |init| && f(init[i]).Some?;
        assert f(s[i]).Some?;
      }
      if i :| 0 <= i < |s| && f(s[i]).Some? {
        assert i < |init| ==> f(init[i]).Some?;
      }
    }
  }

  // The first occurrence does not depend on what follows.
  lemma {:induction false} FirstOfPrefix<E, V>(f: E -> Option<V>, s: seq<E>, m: nat)
    requires m <= |s| && FirstOf(f, s[..m]).Some?
    ensures FirstOf(f, s) == FirstOf(f, s[..m])
    decreases |s|
  {
    if m == |s| {
      assert s[..m] == s;
    } else {
      var init := s[..|s| - 1];
      assert init[..m] == s[..m];
      FirstOfPrefix(f, init, m);
    }
  }

  // Positions of a walk over a list of `n` elements: starts at the start, advances by single
  // steps, falls back any distance at any time.
  predicate Walk(positions: seq<nat>, n: nat) {
    && (positions != [] ==> positions[0] == 0)
    && (forall t :: 0 <= t < |positions| ==> positions[t] < n)
    && (forall t :: 0 <= t < |positions| - 1 ==> positions[t + 1] <= positions[t] + 1)
  }

  function Seen<E>(s: seq<E>, positions: seq<nat>): seq<E>
    requires forall t :: 0 <= t < |positions| ==> positions[t] < |s|
  {
    seq(|positions|, t requires 0 <= t < |positions| => s[positions[t]])
  }

  // How much of the list the walk has covered: everything below the furthest position.
  function Covered(positions: seq<nat>): nat {
    if positions == [] then 0
    else Max(Covered(positions[..|positions| - 1]), positions[|positions| - 1] + 1)
  }

  lemma WalkInit<E>(s: seq<E>, positions: seq<nat>)
    requires Walk(positions, |s|) && positions != []
    ensures var init := positions[..|positions| - 1];
            && Walk(init, |s|)
            && Seen(s, positions) == Seen(s, init) + [s[positions[|positions| - 1]]]
  {
    var init := positions[..|positions| - 1];
    forall t | 0 <= t < |init| - 1 ensures init[t + 1] <= init[t] + 1 {
      assert positions[t + 1] <= positions[t] + 1;
    }
    forall t | 0 <= t < |init| ensures init[t] < |s| {
      assert positions[t] < |s|;
    }
  }

  lemma {:induction false} CoveredBounds(positions: seq<nat>, n: nat)
    requires Walk(positions, n)
    ensures Covered(positions) <= n
    ensures positions != [] ==> positions[|positions| - 1] < Covered(positions)
    ensures positions != [] ==> positions[|positions| - 1] <= Covered(positions[..|positions| - 1])
    decreases |positions|
  {
    if positions != [] {
      var last := |positions| - 1;
      WalkInit(seq(n, i => i), positions);
      CoveredBounds(positions[..last], n);
      if last > 0 {
        assert positions[last] <= positions[last - 1] + 1;
      }
    }
  }

  /** What a walk sees first is what the covered part of the list has first. */
  lemma {:induction false} FirstSeen<E, V>(f: E -> Option<V>, s: seq<E>, positions: seq<nat>)
    requires Walk(positions, |s|)
    ensures Covered(positions) <= |s|
    ensures FirstOf(f, Seen(s, positions)) == FirstOf(f, s[..Covered(positions)])
    decreases |positions|
  {
    CoveredBounds(positions, |s|);
    if positions != [] {
      var init, q := positions[..|positions| - 1], positions[|positions| - 1];
      var m := Covered(init);
      WalkInit(s, positions);
      FirstSeen(f, s, init);
      FirstOfSnoc(f, Seen(s, init), s[q]);
      if q < m {
        Occurs(f, s[..m]);
        assert s[..m][q] == s[q];
      } else {
        assert s[..m + 1] == s[..m] + [s[m]];
        FirstOfSnoc(f, s[..m], s[m]);
      }
    }
  }

  lemma {:induction false} LastOfPrefix<E, V>(f: E -> Option<V>, s: seq<E>, q: nat)
    requires q <= |s| && forall i :: q <= i < |s| ==> f(s[i]).None?
    ensures LastOf(f, s) == LastOf(f, s[..q])
    decreases |s|
  {
    if q == |s| {
      assert s[..q] == s;
    } else {
      var init := s[..|s| - 1];
      assert init[..q] == s[..q];
      LastOfPrefix(f, init, q);
    }
  }

  /** What a walk sees last is what the list has last, once the walk stands at or beyond it. */
  lemma {:induction false} LastSeen<E, V>(f: E -> Option<V>, s: seq<E>, positions: seq<nat>)
    requires Walk(positions, |s|) && positions != []
    requires forall i :: positions[|positions| - 1] < i < |s| ==> f(s[i]).None?
    ensures LastOf(f, Seen(s, positions)) == LastOf(f, s)
    decreases |positions|
  {
    var init, q := positions[..|positions| - 1], positions[|positions| - 1];
    WalkInit(s, positions);
    FirstOfSnoc(f, Seen(s, init), s[q]);
    LastOfPrefix(f, s, q + 1);
    assert s[..q + 1] == s[..q] + [s[q]];
    FirstOfSnoc(f, s[..q], s[q]);
    if f(s[q]).None? {
      if init == [] {
        assert Seen(s, init) == [] && s[..q] == [];
      } else {
        assert positions[|init|] <= positions[|init| - 1] + 1;
        LastSeen(f, s, init);
      }
    }
  }

  // A list of chunks, and the elements of all chunks in order.
  function Flat<E>(chunks: seq<seq<E>>): seq<E> {
    if chunks == [] then [] else Flat(chunks[..|chunks| - 1]) + chunks[|chunks| - 1]
  }

  lemma {:induction false} FlatPrefix<E>(chunks: seq<seq<E>>, i: nat)
    requires i <= |chunks|
    ensures |Flat(chunks[..i])| <= |Flat(chunks)|
    ensures Flat(chunks)[..|Flat(chunks[..i])|] == Flat(chunks[..i])
    decreases |chunks|
  {
    if i == |chunks| {
      assert chunks[..i] == chunks;
    } else {
      var init := chunks[..|chunks| - 1];
      assert init[..i] == chunks[..i];
      FlatPrefix(init, i);
    }
  }

  lemma FlatNext<E>(chunks: seq<seq<E>>, i: nat)
    requires i < |chunks|
    ensures Flat(chunks[..i + 1]) == Flat(chunks[..i]) + chunks[i]
    ensures |Flat(chunks[..i])| + |chunks[i]| <= |Flat(chunks)|
    ensures Flat(chunks)[|Flat(chunks[..i])|..][..|chunks[i]|] == chunks[i]
  {
    assert chunks[..i + 1][..i] == chunks[..i];
    FlatPrefix(chunks, i + 1);
    var start := |Flat(chunks[..i])|;
    assert Flat(chunks)[start..][..|chunks[i]|] == Flat(chunks)[..start + |chunks[i]|][start..];
  }

  // The positions among all elements that visits to whole chunks go through.
  function FlatPositions<E>(chunks: seq<seq<E>>, visits: seq<nat>): seq<nat>
    requires forall t :: 0 <= t < |visits| ==> visits[t] < |chunks|
  {
    if visits == [] then []
    else
      var v := visits[|visits| - 1];
      FlatPositions(chunks, visits[..|visits| - 1]) + Range(|Flat(chunks[..v])|, |chunks[v]|)
  }

  function Range(start: nat, count: nat): seq<nat> {
    seq(count, i requires 0 <= i => start + i)
  }

  function Reached(positions: seq<nat>): nat {
    if positions == [] then 0 else positions[|positions| - 1] + 1
  }

  lemma WalkExtends(positions: seq<nat>, n: nat, start: nat, count: nat)
    requires Walk(positions, n) && start + count <= n && start <= Reached(positions)
    ensures Walk(positions + Range(start, count), n)
    ensures Reached(positions + Range(start, count)) == if count == 0 then Reached(positions) else start + count
  {
    var all := positions + Range(start, count);
    forall t | 0 <= t < |all| - 1 ensures all[t + 1] <= all[t] + 1 {
      if t + 1 < |positions| {
        assert positions[t + 1] <= positions[t] + 1;
      }
    }
  }

  lemma SeenAppend<E>(s: seq<E>, a: seq<nat>, start: nat, count: nat)
    requires start + count <= |s| && forall t :: 0 <= t < |a| ==> a[t] < |s|
    ensures Seen(s, a + Range(start, count)) == Seen(s, a) + s[start..][..count]
  {
  }

  /** A walk over whole chunks is a walk over their elements: it never skips one, and once it has
      visited a chunk it has reached the chunk's end. */
  lemma {:induction false} FlatWalk<E>(chunks: seq<seq<E>>, visits: seq<nat>)
    requires Walk(visits, |chunks|)
    ensures var positions := FlatPositions(chunks, visits);
            && Walk(positions, |Flat(chunks)|)
            && Seen(Flat(chunks), positions) == Flat(Seen(chunks, visits))
            && (visits != [] ==> |Flat(chunks[..visits[|visits| - 1] + 1])| <= Reached(positions))
    decreases |visits|
  {
    if visits != [] {
      var init, v := visits[..|visits| - 1], visits[|visits| - 1];
      WalkInit(chunks, visits);
      FlatWalk(chunks, init);
      FlatNext(chunks, v);
      var before := FlatPositions(chunks, init);
      var start := |Flat(chunks[..v])|;
      if init == [] {
        assert chunks[..0] == [];
      } else {
        var u := init[|init| - 1];
        assert visits[|init|] <= visits[|init| - 1] + 1;
        assert chunks[..u + 1][..v] == chunks[..v];
        FlatPrefix(chunks[..u + 1], v);
      }
      WalkExtends(before, |Flat(chunks)|, start, |chunks[v]|);
      SeenAppend(Flat(chunks), before, start, |chunks[v]|);
      assert Seen(chunks, visits)[..|visits| - 1] == Seen(chunks, init);
    }
  }
}
