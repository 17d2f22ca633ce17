/** Keyset pagination of a creator's contributions: the query ordered by (slot, signature), the
    one-row-past-the-limit page, and the client that walks the pages while rows are inserted. */
module Keyset {
  import opened Common

  datatype Key = Key(slot: nat, sig: Signature)

  datatype Item<V> = Item(key: Key, value: V)

  predicate TextLess(a: string, b: string) {
    if b == [] then false
    else if a == [] then true
    else a[0] < b[0] || (a[0] == b[0] && TextLess(a[1..], b[1..]))
  }

  // The row comparison (slot, sig) < (slot, sig).
  predicate Below(a: Key, b: Key) {
    a.slot < b.slot || (a.slot == b.slot && TextLess(a.sig, b.sig))
  }

  lemma {:induction false} TextTransitive(a: string, b: string, c: string)
    requires TextLess(a, b) && TextLess(b, c)
    ensures TextLess(a, c)
    decreases |a|
  {
    if a != [] && a[0] == b[0] == c[0] {
      TextTransitive(a[1..], b[1..], c[1..]);
    }
  }

  lemma {:induction false} TextTotal(a: string, b: string)
    ensures !(TextLess(a, b) && TextLess(b, a))
    ensures a == b <==> !TextLess(a, b) && !TextLess(b, a)
    decreases |a|
  {
    if a != [] && b != [] && a[0] == b[0] {
      TextTotal(a[1..], b[1..]);
      assert a == [a[0]] + a[1..] && b == [b[0]] + b[1..];
    }
  }

  /** The order of the keys is a strict total order, so an ordered result is one and only one. */
  lemma BelowTotal(a: Key, b: Key, c: Key)
    ensures !(Below(a, b) && Below(b, a))
    ensures a == b <==> !Below(a, b) && !Below(b, a)
    ensures Below(a, b) && Below(b, c) ==> Below(a, c)
  {
    TextTotal(a.sig, b.sig);
    if TextLess(a.sig, b.sig) && TextLess(b.sig, c.sig) {
      TextTransitive(a.sig, b.sig, c.sig);
    }
  }

  // Text order, seen from outside: `a` is a proper prefix of `b`, or has the smaller character at the
  // first position where they differ.
  ghost predicate EarlierText(a: string, b: string) {
    || a < b
    || exists i :: 0 <= i < |a| && i < |b| && a[..i] == b[..i] && a[i] < b[i]
  }

  lemma {:induction false} TextLessIs(a: string, b: string)
    ensures TextLess(a, b) <==> EarlierText(a, b)
    decreases |a|
  {
    if a != [] && b != [] {
      if a[0] == b[0] {
        TextLessIs(a[1..], b[1..]);
        EarlierRest(a, b);
      } else {
        assert a[..0] == b[..0];
      }
    }
  }

  lemma EarlierRest(a: string, b: string)
    requires a != [] && b != [] && a[0] == b[0]
    ensures EarlierText(a, b) <==> EarlierText(a[1..], b[1..])
  {
    assert a == [a[0]] + a[1..] && b == [b[0]] + b[1..];
    if i :| 0 <= i < |a| && i < |b| && a[..i] == b[..i] && a[i] < b[i] {
      assert a[1..][..i - 1] == a[..i][1..] && b[1..][..i - 1] == b[..i][1..];
      assert a[1..][i - 1] < b[1..][i - 1];
    }
    if i :| 0 <= i < |a[1..]| && i < |b[1..]| && a[1..][..i] == b[1..][..i] && a[1..][i] < b[1..][i] {
      assert a[..i + 1] == [a[0]] + a[1..][..i] && b[..i + 1] == [b[0]] + b[1..][..i];
      assert a[i + 1] < b[i + 1];
    }
  }

  // One contribution came before the other: from a smaller slot, or from the same slot with the
  // earlier signature.
  ghost predicate Older(a: Key, b: Key) {
    a.slot < b.slot || (a.slot == b.slot && EarlierText(a.sig, b.sig))
  }

  lemma BelowIsOlder(a: Key, b: Key)
    ensures Below(a, b) <==> Older(a, b)
  {
    TextLessIs(a.sig, b.sig);
  }

  predicate IsTop(top: Key, keys: set<Key>) {
    top in keys && forall k :: k in keys && k != top ==> Below(k, top)
  }

  lemma {:induction false} SomeTop(keys: set<Key>) returns (top: Key)
    requires keys != {}
    ensures IsTop(top, keys)
    decreases |keys|
  {
    var k :| k in keys;
    if keys == {k} {
      top := k;
    } else {
      var rest := SomeTop(keys - {k});
      top := if Below(rest, k) then k else rest;
      BelowTotal(k, rest, k);
      forall j | j in keys && j != top ensures Below(j, top) {
        BelowTotal(j, rest, top);
      }
    }
  }

  function Top(keys: set<Key>): (top: Key)
    requires keys != {}
    ensures IsTop(top, keys)
  {
    assert exists t :: IsTop(t, keys) by {
      var t := SomeTop(keys);
    }
    assert forall s, t :: IsTop(s, keys) && IsTop(t, keys) ==> s == t by {
      forall s, t | IsTop(s, keys) && IsTop(t, keys) ensures s == t {
        BelowTotal(s, t, s);
      }
    }
    var t :| t in keys && IsTop(t, keys);
    t
  }

  // ORDER BY slot DESC, sig DESC
  function Listing(keys: set<Key>): seq<Key>
    decreases |keys|
  {
    if keys == {} then [] else [Top(keys)] + Listing(keys - {Top(keys)})
  }

  ghost predicate Descending(keys: seq<Key>) {
    forall i, j :: 0 <= i < j < |keys| ==> Below(keys[j], keys[i])
  }

  lemma {:induction false} ListingIs(keys: set<Key>)
    ensures Descending(Listing(keys)) && |Listing(keys)| == |keys|
    ensures forall k :: k in Listing(keys) <==> k in keys
    decreases |keys|
  {
    if keys != {} {
      ListingIs(keys - {Top(keys)});
      var rest := Listing(keys - {Top(keys)});
      forall j | 0 <= j < |rest| ensures Below(rest[j], Top(keys)) {
        assert rest[j] in rest;
      }
    }
  }

  /** A descending sequence is determined by its elements. */
  lemma {:induction false} DescendingIsListing(s: seq<Key>, keys: set<Key>)
    requires Descending(s) && forall k :: k in s <==> k in keys
    ensures s == Listing(keys)
    decreases |s|
  {
    if s != [] {
      assert s[0] in keys;
      var top := Top(keys);
      assert top in s;
      if s[0] != top {
        var i :| 0 < i < |s| && s[i] == top;
        BelowTotal(s[0], top, top);
      }
      forall k ensures k in s[1..] <==> k in keys - {top} {
        if k in s[1..] {
          var j :| 0 < j < |s| && s[j] == k;
          BelowTotal(k, top, top);
        }
      }
      DescendingIsListing(s[1..], keys - {top});
    } else {
      assert keys == {};
    }
  }

  function After<V>(table: map<Key, V>, cursor: Option<Key>): set<Key> {
    set k | k in table && (cursor.Some? ==> Below(k, cursor.value))
  }

  // WHERE (slot, sig) < (cursor) ORDER BY ... LIMIT limit
  function Query<V>(table: map<Key, V>, cursor: Option<Key>, limit: nat): seq<Key> {
    var rows := Listing(After(table, cursor));
    rows[..Min(limit, |rows|)]
  }

  datatype Page<V> = Page(items: seq<Item<V>>, nextCursor: Option<Key>)

  function Items<V>(table: map<Key, V>, keys: seq<Key>): seq<Item<V>>
    requires forall i :: 0 <= i < |keys| ==> keys[i] in table
  {
    seq(|keys|, i requires 0 <= i < |keys| => Item(keys[i], table[keys[i]]))
  }

  lemma NotBelow(all: seq<Key>, n: nat, j: nat)
    requires Descending(all) && 0 < n <= |all| && j < |all| && !Below(all[j], all[n - 1])
    ensures j < n
  {
  }

  lemma QueryIs<V>(table: map<Key, V>, cursor: Option<Key>, limit: nat)
    ensures var rows := Query(table, cursor, limit);
      && Descending(rows) && |rows| <= limit
      && (forall i :: 0 <= i < |rows| ==> rows[i] in After(table, cursor))
      && (|rows| < limit ==> forall k :: k in After(table, cursor) ==> k in rows)
      && (forall k :: k in After(table, cursor) && rows != [] && !Below(k, rows[|rows| - 1]) ==> k in rows)
  {
    var all := Listing(After(table, cursor));
    var rows := Query(table, cursor, limit);
    ListingIs(After(table, cursor));
    forall i | 0 <= i < |rows| ensures rows[i] in After(table, cursor) {
      assert rows[i] in all;
    }
    forall k | k in After(table, cursor) && rows != [] && !Below(k, rows[|rows| - 1]) ensures k in rows {
      var j :| 0 <= j < |all| && all[j] == k;
      NotBelow(all, |rows|, j);
    }
  }

  // The route: one row past the limit tells whether a next page exists.
  function PageOf<V>(table: map<Key, V>, cursor: Option<Key>, limit: nat): Page<V> {
    QueryIs(table, cursor, limit + 1);
    var rows := Query(table, cursor, limit + 1);
    var items := rows[..Min(limit, |rows|)];
    assert forall i :: 0 <= i < |items| ==> items[i] in table;
    Page(Items(table, items), if |rows| > limit && items != [] then Some(items[|items| - 1]) else None)
  }

  ghost predicate DescendingItems<V>(items: seq<Item<V>>) {
    forall i, j :: 0 <= i < j < |items| ==> Below(items[j].key, items[i].key)
  }

  ghost predicate Lists<V>(items: seq<Item<V>>, k: Key) {
    exists i :: 0 <= i < |items| && items[i].key == k
  }

  // Which rows a page holds, in what order.
  ghost predicate HoldsRows<V>(table: map<Key, V>, cursor: Option<Key>, limit: nat, page: Page<V>) {
    && DescendingItems(page.items) && |page.items| <= limit
    && (forall i :: 0 <= i < |page.items| ==>
          && page.items[i].key in After(table, cursor)
          && page.items[i].value == table[page.items[i].key])
  }

  // The end of a page: nothing is left out before its cursor, nothing at all without one.
  ghost predicate SkipsNothing<V>(table: map<Key, V>, cursor: Option<Key>, limit: nat, page: Page<V>) {
    match page.nextCursor
    case None => forall k :: k in After(table, cursor) ==> Lists(page.items, k)
    case Some(last) =>
      && 0 < |page.items| == limit && last == page.items[limit - 1].key
      && After(table, Some(last)) != {}
      && (forall k :: k in After(table, cursor) && !Below(k, last) ==> Lists(page.items, k))
  }

  // Newest first: slots never rise from one item to the next, and within a slot each signature is
  // later than the next.
  ghost predicate NewestFirst<V>(items: seq<Item<V>>) {
    forall i, j :: 0 <= i < j < |items| ==>
      && items[i].key.slot >= items[j].key.slot
      && (items[i].key.slot == items[j].key.slot ==> EarlierText(items[j].key.sig, items[i].key.sig))
  }

  lemma DescendingIsNewestFirst<V>(items: seq<Item<V>>)
    requires DescendingItems(items)
    ensures NewestFirst(items)
  {
    forall i, j | 0 <= i < j < |items| ensures Older(items[j].key, items[i].key) {
      BelowIsOlder(items[j].key, items[i].key);
    }
    hide EarlierText;
  }

  lemma CutPage<V>(table: map<Key, V>, cursor: Option<Key>, limit: nat, rows: seq<Key>, items: seq<Item<V>>, k: Key)
    requires rows == Query(table, cursor, limit + 1) && 0 < limit < |rows| && |items| == limit
    requires forall i :: 0 <= i < limit ==> items[i].key == rows[i]
    requires k in After(table, cursor) && !Below(k, rows[limit - 1])
    ensures Lists(items, k)
  {
    QueryIs(table, cursor, limit + 1);
    assert Below(rows[limit], rows[limit - 1]);
    BelowTotal(k, rows[limit], rows[limit - 1]);
    var j :| 0 <= j < |rows| && rows[j] == k;
    assert items[j].key == k;
  }

  lemma EndPage<V>(table: map<Key, V>, cursor: Option<Key>, limit: nat, rows: seq<Key>, items: seq<Item<V>>, k: Key)
    requires rows == Query(table, cursor, limit + 1) && |rows| <= limit && |items| == |rows|
    requires forall i :: 0 <= i < |rows| ==> items[i].key == rows[i]
    requires k in After(table, cursor)
    ensures Lists(items, k)
  {
    QueryIs(table, cursor, limit + 1);
    var j :| 0 <= j < |rows| && rows[j] == k;
    assert items[j].key == k;
  }

  lemma PageSkipsNothing<V>(table: map<Key, V>, cursor: Option<Key>, limit: nat, rows: seq<Key>, page: Page<V>)
    requires limit >= 1 && rows == Query(table, cursor, limit + 1) && page == PageOf(table, cursor, limit)
    requires Descending(rows) && |rows| <= limit + 1 && forall i :: 0 <= i < |rows| ==> rows[i] in After(table, cursor)
    ensures SkipsNothing(table, cursor, limit, page)
  {
    assert forall i :: 0 <= i < |page.items| ==> page.items[i].key == rows[i];
    if page.nextCursor.Some? {
      var last := page.nextCursor.value;
      assert Below(rows[limit], last);
      assert rows[limit] in After(table, Some(last));
      forall k | k in After(table, cursor) && !Below(k, last) ensures Lists(page.items, k) {
        CutPage(table, cursor, limit, rows, page.items, k);
      }
    } else {
      forall k | k in After(table, cursor) ensures Lists(page.items, k) {
        EndPage(table, cursor, limit, rows, page.items, k);
      }
    }
  }

  lemma PageRows<V>(table: map<Key, V>, cursor: Option<Key>, limit: nat)
    requires limit >= 1
    ensures HoldsRows(table, cursor, limit, PageOf(table, cursor, limit))
    ensures SkipsNothing(table, cursor, limit, PageOf(table, cursor, limit))
  {
    QueryIs(table, cursor, limit + 1);
    PageSkipsNothing(table, cursor, limit, Query(table, cursor, limit + 1), PageOf(table, cursor, limit));
  }

  // What a request behind a cursor asks for: rows of the table older than the cursor.
  ghost predicate Asked<V>(table: map<Key, V>, cursor: Option<Key>, k: Key) {
    k in table && (cursor.Some? ==> Older(k, cursor.value))
  }

  /** A page, in the caller's terms: at most `limit` rows older than the cursor, with their contents,
      newest first. Its next cursor is its last row, and is there exactly when the page is full and an
      older row exists; the page skips nothing down to that cursor, and without one nothing at all. */
  lemma PageIs<V>(table: map<Key, V>, cursor: Option<Key>, limit: nat)
    requires limit >= 1
    ensures var page := PageOf(table, cursor, limit);
      && NewestFirst(page.items) && |page.items| <= limit
      && (forall i :: 0 <= i < |page.items| ==>
            Asked(table, cursor, page.items[i].key) && page.items[i].value == table[page.items[i].key])
      && (forall k :: Asked(table, cursor, k) && (page.nextCursor.Some? ==> !Older(k, page.nextCursor.value)) ==>
            Lists(page.items, k))
      && (page.nextCursor.Some? ==>
            && |page.items| == limit && page.nextCursor.value == page.items[limit - 1].key
            && exists k :: Asked(table, page.nextCursor, k))
  {
    var page := PageOf(table, cursor, limit);
    PageRows(table, cursor, limit);
    hide PageOf, Below, EarlierText;
    DescendingIsNewestFirst(page.items);
    AfterIsAsked(table, cursor);
    AfterIsAsked(table, page.nextCursor);
    if page.nextCursor.Some? {
      forall k ensures Below(k, page.nextCursor.value) <==> Older(k, page.nextCursor.value) {
        BelowIsOlder(k, page.nextCursor.value);
      }
      var k :| k in After(table, page.nextCursor);
      assert Asked(table, page.nextCursor, k);
    }
  }

  lemma AfterIsAsked<V>(table: map<Key, V>, cursor: Option<Key>)
    ensures forall k :: k in After(table, cursor) <==> Asked(table, cursor, k)
  {
    forall k ensures k in After(table, cursor) <==> Asked(table, cursor, k) {
      if cursor.Some? {
        BelowIsOlder(k, cursor.value);
      }
    }
  }

  // Rows are added and never change.
  ghost predicate Growing<V>(tables: seq<map<Key, V>>) {
    forall i, j, k :: 0 <= i <= j < |tables| && k in tables[i] ==> k in tables[j] && tables[j][k] == tables[i][k]
  }

  // The ledger moves on: what is added is newer than everything that was there.
  ghost predicate NewerOnly<V>(tables: seq<map<Key, V>>) {
    forall j, k, k0 :: 0 <= j < |tables| && k in tables[j] && k !in tables[0] && k0 in tables[0] ==> Older(k0, k)
  }

  function KeysOf<V>(items: seq<Item<V>>): seq<Key> {
    seq(|items|, i requires 0 <= i < |items| => items[i].key)
  }

  // The table the request number `n` meets; after the script the table rests.
  function At<V>(tables: seq<map<Key, V>>, n: nat): map<Key, V>
    requires tables != []
  {
    tables[Min(n, |tables| - 1)]
  }

  lemma ItemsJoin<V>(items: seq<Item<V>>, more: seq<Item<V>>, cursor: Option<Key>)
    requires DescendingItems(items) && DescendingItems(more)
    requires cursor == if items == [] then None else Some(items[|items| - 1].key)
    requires cursor.Some? ==> forall i :: 0 <= i < |more| ==> Below(more[i].key, cursor.value)
    ensures DescendingItems(items + more)
    ensures forall k :: Lists(items + more, k) <==> Lists(items, k) || Lists(more, k)
  {
    var all := items + more;
    forall i, j | 0 <= i < j < |all| ensures Below(all[j].key, all[i].key) {
      if i < |items| <= j {
        BelowTotal(all[j].key, cursor.value, all[i].key);
        assert i == |items| - 1 || Below(items[|items| - 1].key, items[i].key);
      }
    }
    forall k ensures Lists(all, k) <==> Lists(items, k) || Lists(more, k) {
      if Lists(items, k) {
        var i :| 0 <= i < |items| && items[i].key == k;
        assert all[i].key == k;
      }
      if Lists(more, k) {
        var i :| 0 <= i < |more| && more[i].key == k;
        assert all[|items| + i].key == k;
      }
      if Lists(all, k) {
        var i :| 0 <= i < |all| && all[i].key == k;
        assert i < |items| || more[i - |items|].key == k;
      }
    }
  }

  // What the walk has established when it stands at `cursor`.
  ghost predicate Walked<V>(tables: seq<map<Key, V>>, items: seq<Item<V>>, cursor: Option<Key>)
    requires tables != []
  {
    && DescendingItems(items)
    && cursor == (if items == [] then None else Some(items[|items| - 1].key))
    && (forall i :: 0 <= i < |items| ==>
          && items[i].key in tables[|tables| - 1]
          && items[i].value == tables[|tables| - 1][items[i].key])
    && (forall k :: k in tables[0] && k !in After(tables[0], cursor) ==> Lists(items, k))
    && (NewerOnly(tables) ==> forall i :: 0 <= i < |items| ==> items[i].key in tables[0])
  }

  ghost predicate Complete<V>(tables: seq<map<Key, V>>, items: seq<Item<V>>)
    requires tables != []
  {
    && DescendingItems(items)
    && (forall i :: 0 <= i < |items| ==>
          && items[i].key in tables[|tables| - 1]
          && items[i].value == tables[|tables| - 1][items[i].key])
    && (forall k :: k in tables[0] ==> Lists(items, k))
    && (NewerOnly(tables) ==> KeysOf(items) == Listing(tables[0].Keys))
  }

  lemma StepRows<V>(tables: seq<map<Key, V>>, n: nat, items: seq<Item<V>>, cursor: Option<Key>, limit: nat,
                    page: Page<V>)
    requires tables != [] && Growing(tables) && Walked(tables, items, cursor)
    requires HoldsRows(At(tables, n), cursor, limit, page)
    ensures DescendingItems(items + page.items)
    ensures forall k :: Lists(items + page.items, k) <==> Lists(items, k) || Lists(page.items, k)
    ensures forall i :: 0 <= i < |items + page.items| ==>
              && (items + page.items)[i].key in tables[|tables| - 1]
              && (items + page.items)[i].value == tables[|tables| - 1][(items + page.items)[i].key]
  {
    ItemsJoin(items, page.items, cursor);
    var m := Min(n, |tables| - 1);
    forall i | 0 <= i < |page.items|
      ensures page.items[i].key in tables[|tables| - 1]
      ensures page.items[i].value == tables[|tables| - 1][page.items[i].key]
    {
      assert page.items[i].key in tables[m];
    }
  }

  // Newer rows stay out of the pages that follow the first.
  lemma StepOld<V>(tables: seq<map<Key, V>>, n: nat, items: seq<Item<V>>, cursor: Option<Key>, limit: nat,
                   page: Page<V>)
    requires tables != [] && Growing(tables) && Walked(tables, items, cursor) && NewerOnly(tables)
    requires HoldsRows(At(tables, n), cursor, limit, page) && (cursor.None? ==> n == 0)
    ensures forall i :: 0 <= i < |items + page.items| ==> (items + page.items)[i].key in tables[0]
  {
    var m := Min(n, |tables| - 1);
    forall i | 0 <= i < |page.items| ensures page.items[i].key in tables[0] {
      var k := page.items[i].key;
      assert k in tables[m];
      if k !in tables[0] && cursor.Some? {
        assert cursor.value in tables[0] && Below(k, cursor.value);
        assert Older(cursor.value, k);
        BelowIsOlder(cursor.value, k);
        BelowTotal(k, cursor.value, k);
      }
    }
  }

  // A page takes everything it passes.
  lemma StepCovers<V>(tables: seq<map<Key, V>>, n: nat, items: seq<Item<V>>, cursor: Option<Key>, limit: nat,
                      page: Page<V>, k: Key)
    requires tables != [] && Growing(tables) && Walked(tables, items, cursor) && k in tables[0]
    requires SkipsNothing(At(tables, n), cursor, limit, page)
    requires page.nextCursor.None? || k !in After(tables[0], page.nextCursor)
    ensures Lists(items, k) || Lists(page.items, k)
  {
    if k in After(tables[0], cursor) {
      assert k in tables[Min(n, |tables| - 1)];
      assert k in After(At(tables, n), cursor);
    }
  }

  lemma StepWalks<V>(tables: seq<map<Key, V>>, n: nat, items: seq<Item<V>>, cursor: Option<Key>, limit: nat,
                     page: Page<V>)
    requires tables != [] && Growing(tables) && Walked(tables, items, cursor) && (cursor.None? ==> n == 0)
    requires HoldsRows(At(tables, n), cursor, limit, page) && SkipsNothing(At(tables, n), cursor, limit, page)
    ensures page.nextCursor.Some? ==> Walked(tables, items + page.items, page.nextCursor)
    ensures page.nextCursor.None? ==> Complete(tables, items + page.items)
  {
    var all := items + page.items;
    StepRows(tables, n, items, cursor, limit, page);
    if NewerOnly(tables) {
      StepOld(tables, n, items, cursor, limit, page);
    }
    forall k | k in tables[0] && (page.nextCursor.None? || k !in After(tables[0], page.nextCursor))
      ensures Lists(all, k)
    {
      StepCovers(tables, n, items, cursor, limit, page, k);
    }
    if page.nextCursor.None? && NewerOnly(tables) {
      ListsAll(tables[0].Keys, all);
    }
  }

  lemma ListsAll<V>(keys: set<Key>, items: seq<Item<V>>)
    requires DescendingItems(items) && (forall k :: k in keys ==> Lists(items, k))
    requires forall i :: 0 <= i < |items| ==> items[i].key in keys
    ensures KeysOf(items) == Listing(keys)
  {
    forall k ensures k in KeysOf(items) <==> k in keys {
      if Lists(items, k) {
        var i :| 0 <= i < |items| && items[i].key == k;
        assert KeysOf(items)[i] == k;
      }
    }
    DescendingIsListing(KeysOf(items), keys);
  }

  // Every page with a next cursor moves on in the final table.
  lemma StepShrinks<V>(tables: seq<map<Key, V>>, n: nat, cursor: Option<Key>, limit: nat, page: Page<V>)
    requires tables != [] && Growing(tables) && page.nextCursor.Some?
    requires HoldsRows(At(tables, n), cursor, limit, page) && SkipsNothing(At(tables, n), cursor, limit, page)
    ensures |After(tables[|tables| - 1], page.nextCursor)| < |After(tables[|tables| - 1], cursor)|
  {
    var final, last := tables[|tables| - 1], page.nextCursor.value;
    assert last in tables[Min(n, |tables| - 1)];
    assert last in After(final, cursor);
    BelowTotal(last, last, last);
    forall k | k in After(final, page.nextCursor) ensures k in After(final, cursor) {
      if cursor.Some? {
        BelowTotal(k, last, cursor.value);
      }
    }
    SubsetSize(After(final, page.nextCursor), After(final, cursor) - {last});
  }

  // What the walk returns: rows of the last table, newest first, among them all of the first one; and
  // nothing else if everything that was added meanwhile is newer.
  ghost predicate Collected<V>(tables: seq<map<Key, V>>, items: seq<Item<V>>)
    requires tables != []
  {
    && NewestFirst(items)
    && (forall i :: 0 <= i < |items| ==>
          && items[i].key in tables[|tables| - 1]
          && items[i].value == tables[|tables| - 1][items[i].key])
    && (forall k :: k in tables[0] ==> Lists(items, k))
    && (NewerOnly(tables) ==> |items| == |tables[0]| && forall i :: 0 <= i < |items| ==> items[i].key in tables[0])
  }

  lemma CompleteIsCollected<V>(tables: seq<map<Key, V>>, items: seq<Item<V>>)
    requires tables != [] && Complete(tables, items)
    ensures Collected(tables, items)
  {
    DescendingIsNewestFirst(items);
    hide NewestFirst, NewerOnly, DescendingItems;
    if NewerOnly(tables) {
      ListingIs(tables[0].Keys);
      forall i | 0 <= i < |items| ensures items[i].key in tables[0] {
        assert KeysOf(items)[i] == items[i].key;
      }
    }
  }

  /** The walk over all pages, whatever is inserted between the requests: it ends; it returns no row
      twice, newest first; every row present at its start is in it, with its content; and if the
      ledger only moves on, the result is exactly the table at its start. */
  method FetchAll<V>(tables: seq<map<Key, V>>, limit: nat) returns (items: seq<Item<V>>, requests: nat)
    requires tables != [] && Growing(tables) && limit >= 1
    ensures Collected(tables, items)
    ensures requests >= 1 && (requests - 1) * limit <= |items| <= requests * limit
  {
    hide PageOf, At;
    items, requests := [], 0;
    var cursor: Option<Key> := None;
    var more := true;
    while more
      invariant more ==> Walked(tables, items, cursor) && (cursor.None? <==> requests == 0) && |items| == requests * limit
      invariant !more ==> Complete(tables, items) && requests >= 1 && (requests - 1) * limit <= |items| <= requests * limit
      decreases more, |After(tables[|tables| - 1], cursor)|
    {
      var page := PageOf(At(tables, requests), cursor, limit);
      PageRows(At(tables, requests), cursor, limit);
      StepWalks(tables, requests, items, cursor, limit, page);
      if page.nextCursor.Some? {
        StepShrinks(tables, requests, cursor, limit, page);
      }
      assert (requests + 1) * limit == requests * limit + limit;
      items := items + page.items;
      cursor := page.nextCursor;
      requests := requests + 1;
      more := cursor.Some?;
    }
    CompleteIsCollected(tables, items);
  }
}
