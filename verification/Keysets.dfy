/** Keyset pagination as the three listings do it: rows ordered by (creation text, id), a page asks
    for one row more than its limit, and the next cursor is the key of the last row kept
    (internal/application/media/directory.go:159-181, internal/application/auditing/directory.go:125-149,
    internal/application/users/pagination.go:130-152). Media and audit rows come in descending order,
    users in ascending order. */
module Keysets {
  import opened Options
  import opened TextOrder

  datatype Key = Key(created: string, id: string)

  predicate KeyLt(a: Key, b: Key) {
    Lt(a.created, b.created) || (a.created == b.created && Lt(a.id, b.id))
  }

  predicate Before(desc: bool, a: Key, b: Key) {
    if desc then KeyLt(b, a) else KeyLt(a, b)
  }

  lemma BeforeIrreflexive(desc: bool, a: Key)
    ensures !Before(desc, a, a)
  {
    LtIrreflexive(a.created);
    LtIrreflexive(a.id);
  }

  lemma BeforeTransitive(desc: bool, a: Key, b: Key, c: Key)
    requires Before(desc, a, b) && Before(desc, b, c)
    ensures Before(desc, a, c)
  {
    var x, z := if desc then c else a, if desc then a else c;
    LtIrreflexive(b.created);
    if x.created != b.created && b.created != z.created {
      LtTransitive(x.created, b.created, z.created);
    } else if x.created == b.created == z.created {
      LtTransitive(x.id, b.id, z.id);
    }
  }

  lemma BeforeTotal(desc: bool, a: Key, b: Key)
    ensures a == b || Before(desc, a, b) || Before(desc, b, a)
  {
    LtTotal(a.created, b.created);
    LtTotal(a.id, b.id);
  }

  // ----- ordered result sets -----

  ghost predicate Ascending(desc: bool, s: seq<Key>) {
    forall i, j | 0 <= i < j < |s| :: Before(desc, s[i], s[j])
  }

  predicate IsFirst(keys: set<Key>, desc: bool, first: Key) {
    first in keys && forall k | k in keys && k != first :: Before(desc, first, k)
  }

  lemma {:induction false} FirstExists(keys: set<Key>, desc: bool) returns (first: Key)
    requires keys != {}
    ensures IsFirst(keys, desc, first)
    decreases |keys|
  {
    var any :| any in keys;
    first := any;
    if keys != {any} {
      var rest := keys - {any};
      var least := FirstExists(rest, desc);
      BeforeTotal(desc, any, least);
      if Before(desc, least, any) {
        first := least;
      } else {
        forall k | k in keys && k != any
          ensures Before(desc, any, k)
        {
          if k != least {
            BeforeTransitive(desc, any, least, k);
          }
        }
      }
    }
  }

  lemma FirstUnique(keys: set<Key>, desc: bool, a: Key, b: Key)
    requires IsFirst(keys, desc, a) && IsFirst(keys, desc, b)
    ensures a == b
  {
    if a != b {
      BeforeTransitive(desc, a, b, a);
      BeforeIrreflexive(desc, a);
    }
  }

  function First(keys: set<Key>, desc: bool): (first: Key)
    requires keys != {}
    ensures IsFirst(keys, desc, first)
  {
    assert exists first :: IsFirst(keys, desc, first) by {
      var first := FirstExists(keys, desc);
    }
    assert forall a, b | IsFirst(keys, desc, a) && IsFirst(keys, desc, b) :: a == b by {
      forall a, b | IsFirst(keys, desc, a) && IsFirst(keys, desc, b)
        ensures a == b
      {
        FirstUnique(keys, desc, a, b);
      }
    }
    var first :| first in keys && IsFirst(keys, desc, first);
    first
  }

  /** ORDER BY. */
  function Ordered(keys: set<Key>, desc: bool): seq<Key>
    decreases |keys|
  {
    if keys == {} then [] else
      var first := First(keys, desc);
      [first] + Ordered(keys - {first}, desc)
  }

  lemma {:induction false} OrderedSpec(keys: set<Key>, desc: bool)
    ensures var s := Ordered(keys, desc);
            Ascending(desc, s) && |s| == |keys| && forall k :: k in s <==> k in keys
    decreases |keys|
  {
    hide Before;
    if keys != {} {
      var first := First(keys, desc);
      var rest := keys - {first};
      OrderedSpec(rest, desc);
      var t := Ordered(rest, desc);
      var s := [first] + t;
      assert |keys| == |rest| + 1;
      forall k
        ensures k in s <==> k in keys
      {
        assert k in s <==> k == first || k in t;
      }
      forall i, j | 0 <= i < j < |s|
        ensures Before(desc, s[i], s[j])
      {
        assert s[j] == t[j - 1];
        assert t[j - 1] in t;
      }
    }
  }

  lemma HeadIn<T>(s: seq<T>)
    ensures s != [] ==> s[0] in s
  {
  }

  /** There is one ascending sequence of a set of keys. */
  lemma {:induction false} AscendingUnique(desc: bool, s: seq<Key>, t: seq<Key>)
    requires Ascending(desc, s) && Ascending(desc, t) && forall k :: k in s <==> k in t
    ensures s == t
  {
    HeadIn(s);
    HeadIn(t);
    if s != [] {
      if s[0] != t[0] {
        BeforeTransitive(desc, s[0], t[0], s[0]);
        BeforeIrreflexive(desc, s[0]);
      }
      forall k
        ensures k in s[1..] <==> k in t[1..]
      {
        BeforeIrreflexive(desc, s[0]);
        assert k in s <==> k == s[0] || k in s[1..];
        assert k in t <==> k == t[0] || k in t[1..];
      }
      AscendingUnique(desc, s[1..], t[1..]);
    }
  }

  // ----- one page -----

  datatype Page = Page(keys: seq<Key>, next: Option<Key>)

  function After(keys: set<Key>, desc: bool, cursor: Option<Key>): set<Key> {
    set k | k in keys && (cursor.Some? ==> Before(desc, cursor.value, k))
  }

  /** The cursor condition, ORDER BY and LIMIT. */
  function Query(keys: set<Key>, desc: bool, cursor: Option<Key>, limit: nat): (rows: seq<Key>)
    ensures |rows| <= limit
  {
    var s := Ordered(After(keys, desc, cursor), desc);
    if |s| <= limit then s else s[..limit]
  }

  function PageOf(keys: set<Key>, desc: bool, cursor: Option<Key>, limit: nat): Page
    requires limit >= 1
  {
    var rows := Query(keys, desc, cursor, limit + 1);
    if |rows| <= limit then Page(rows, None) else Page(rows[..limit], Some(rows[limit - 1]))
  }

  lemma QueryFrom(keys: set<Key>, desc: bool, cursor: Option<Key>, limit: nat)
    ensures forall k | k in Query(keys, desc, cursor, limit) :: k in keys
  {
    hide Before, Ordered;
    OrderedSpec(After(keys, desc, cursor), desc);
    var s := Ordered(After(keys, desc, cursor), desc);
    assert forall k | k in s :: k in keys;
  }

  /** What a page promises: its keys are the first ones after the cursor, and when it names a next
      cursor it is full and everything it has left out comes after that cursor. */
  lemma PageSpec(keys: set<Key>, desc: bool, cursor: Option<Key>, limit: nat)
    requires limit >= 1
    ensures var p := PageOf(keys, desc, cursor, limit);
            && Ascending(desc, p.keys)
            && (forall k | k in p.keys :: k in After(keys, desc, cursor))
            && (p.next.None? ==> |p.keys| <= limit && forall k | k in After(keys, desc, cursor) :: k in p.keys)
            && (p.next.Some? ==>
                  && |p.keys| == limit && p.next.value == p.keys[limit - 1]
                  && (exists k :: k in After(keys, desc, cursor) && Before(desc, p.next.value, k))
                  && (forall k | k in After(keys, desc, cursor) :: k in p.keys || Before(desc, p.next.value, k)))
  {
    hide Before, Ordered, After, PageOf;
    var p := PageOf(keys, desc, cursor, limit);
    var s := Ordered(After(keys, desc, cursor), desc);
    OrderedSpec(After(keys, desc, cursor), desc);
    PageRows(keys, desc, cursor, limit);
    if p.next.Some? {
      forall k | k in s
        ensures k in p.keys || Before(desc, p.next.value, k)
      {
        var i :| 0 <= i < |s| && s[i] == k;
        assert i < limit ==> p.keys[i] == k;
      }
      assert s[limit] in s && Before(desc, p.next.value, s[limit]);
    }
  }

  lemma PageRows(keys: set<Key>, desc: bool, cursor: Option<Key>, limit: nat)
    requires limit >= 1
    ensures var p, s := PageOf(keys, desc, cursor, limit), Ordered(After(keys, desc, cursor), desc);
            && (p.next.None? <==> |s| <= limit)
            && p.keys == (if |s| <= limit then s else s[..limit])
            && (p.next.Some? ==> p.next.value == s[limit - 1])
  {
  }

  // ----- following the next cursor -----

  function CursorOf(pages: seq<Page>, i: nat): Option<Key>
    requires i <= |pages|
  {
    if i == 0 then None else pages[i - 1].next
  }

  ghost predicate FollowedAt(desc: bool, limit: nat, tables: seq<set<Key>>, pages: seq<Page>, i: nat)
    requires limit >= 1 && i < |pages| == |tables|
  {
    && (i > 0 ==> pages[i - 1].next.Some?)
    && pages[i] == PageOf(tables[i], desc, CursorOf(pages, i), limit)
  }

  /** Page i was read from table i at the cursor that page i - 1 named; the tables may differ. */
  ghost predicate Followed(desc: bool, limit: nat, tables: seq<set<Key>>, pages: seq<Page>)
    requires limit >= 1
  {
    |tables| == |pages| && forall i | 0 <= i < |pages| :: FollowedAt(desc, limit, tables, pages, i)
  }

  predicate Ended(pages: seq<Page>) {
    pages != [] && pages[|pages| - 1].next.None?
  }

  function Listed(pages: seq<Page>): seq<Key> {
    if pages == [] then [] else Listed(pages[..|pages| - 1]) + pages[|pages| - 1].keys
  }

  lemma FollowedPrefix(desc: bool, limit: nat, tables: seq<set<Key>>, pages: seq<Page>)
    requires limit >= 1 && Followed(desc, limit, tables, pages) && pages != []
    ensures Followed(desc, limit, tables[..|pages| - 1], pages[..|pages| - 1])
  {
    var n := |pages| - 1;
    hide PageOf;
    forall i | 0 <= i < n
      ensures FollowedAt(desc, limit, tables[..n], pages[..n], i)
    {
      assert FollowedAt(desc, limit, tables, pages, i);
    }
  }

  lemma FollowedNone(desc: bool, limit: nat)
    requires limit >= 1
    ensures Followed(desc, limit, [], [])
  {
  }

  lemma FollowedExtended(desc: bool, limit: nat, tables: seq<set<Key>>, pages: seq<Page>, keys: set<Key>, page: Page)
    requires limit >= 1 && Followed(desc, limit, tables, pages)
    requires pages != [] ==> pages[|pages| - 1].next.Some?
    requires page == PageOf(keys, desc, CursorOf(pages, |pages|), limit)
    ensures Followed(desc, limit, tables + [keys], pages + [page])
  {
    hide PageOf;
    forall i | 0 <= i <= |pages|
      ensures FollowedAt(desc, limit, tables + [keys], pages + [page], i)
    {
      assert i < |pages| ==> FollowedAt(desc, limit, tables, pages, i);
    }
  }

  /** Whatever happens to the rows between the pages, the keys come strictly in order, so none comes
      twice. */
  lemma {:induction false} NoRepeats(desc: bool, limit: nat, tables: seq<set<Key>>, pages: seq<Page>)
    requires limit >= 1 && Followed(desc, limit, tables, pages)
    ensures Ascending(desc, Listed(pages))
    ensures pages != [] && pages[|pages| - 1].next.Some? ==>
              NoneBeyond(desc, Listed(pages), pages[|pages| - 1].next.value)
    decreases |pages|
  {
    hide Before, PageOf, After, Ascending, NoneBeyond;
    if pages == [] {
      ShortAscends(desc);
    } else {
      var n := |pages| - 1;
      FollowedPrefix(desc, limit, tables, pages);
      NoRepeats(desc, limit, tables[..n], pages[..n]);
      assert FollowedAt(desc, limit, tables, pages, n);
      PageSpec(tables[n], desc, CursorOf(pages, n), limit);
      if n > 0 {
        assert forall b | b in pages[n].keys :: Before(desc, pages[n - 1].next.value, b) by {
          AfterCursor(tables[n], desc, CursorOf(pages, n));
        }
        JoinAscends(desc, Listed(pages[..n]), pages[n].keys, pages[n - 1].next.value);
      } else {
        assert Listed(pages) == pages[n].keys;
      }
      if pages[n].next.Some? {
        AscendsToLast(desc, Listed(pages));
      }
    }
  }

  lemma ShortAscends(desc: bool)
    ensures Ascending(desc, [])
  {
  }

  ghost predicate NoneBeyond(desc: bool, s: seq<Key>, c: Key) {
    forall k | k in s :: k == c || Before(desc, k, c)
  }

  lemma AfterCursor(keys: set<Key>, desc: bool, cursor: Option<Key>)
    requires cursor.Some?
    ensures forall k | k in After(keys, desc, cursor) :: Before(desc, cursor.value, k)
  {
  }

  lemma AscendsToLast(desc: bool, s: seq<Key>)
    requires Ascending(desc, s) && s != []
    ensures NoneBeyond(desc, s, s[|s| - 1])
  {
  }

  lemma JoinAscends(desc: bool, s: seq<Key>, t: seq<Key>, c: Key)
    requires Ascending(desc, s) && Ascending(desc, t) && NoneBeyond(desc, s, c) && forall b | b in t ::
               Before(desc, c, b)
    ensures Ascending(desc, s + t)
  {
    hide Before;
    var u := s + t;
    forall i, j | 0 <= i < j < |u|
      ensures Before(desc, u[i], u[j])
    {
      if i < |s| && |s| <= j {
        assert u[i] in s && u[j] in t;
        if u[i] != c {
          BeforeTransitive(desc, u[i], c, u[j]);
        }
      }
    }
  }

  /** A key that was there at every page is listed once the pages have ended. */
  lemma {:induction false} NoGaps(desc: bool, limit: nat, tables: seq<set<Key>>, pages: seq<Page>, key: Key)
    requires limit >= 1 && Followed(desc, limit, tables, pages) && pages != []
    requires forall i | 0 <= i < |tables| :: key in tables[i]
    ensures key in Listed(pages) || (pages[|pages| - 1].next.Some? && Before(desc, pages[|pages| - 1].next.value, key))
    decreases |pages|
  {
    hide Before, PageOf, Ascending;
    var n := |pages| - 1;
    FollowedPrefix(desc, limit, tables, pages);
    if n > 0 {
      NoGaps(desc, limit, tables[..n], pages[..n], key);
    }
    assert FollowedAt(desc, limit, tables, pages, n);
    PageSpec(tables[n], desc, CursorOf(pages, n), limit);
    assert key in tables[n];
  }

  /** Every listed key was in the table that its page was read from. */
  lemma {:induction false} ListedWasThere(desc: bool, limit: nat, tables: seq<set<Key>>, pages: seq<Page>, key: Key)
    requires limit >= 1 && Followed(desc, limit, tables, pages) && key in Listed(pages)
    ensures exists i :: 0 <= i < |pages| && key in pages[i].keys && key in tables[i]
    decreases |pages|
  {
    hide Before, PageOf;
    var n := |pages| - 1;
    if key in pages[n].keys {
      assert FollowedAt(desc, limit, tables, pages, n);
      PageSpec(tables[n], desc, CursorOf(pages, n), limit);
    } else {
      FollowedPrefix(desc, limit, tables, pages);
      ListedWasThere(desc, limit, tables[..n], pages[..n], key);
      var i :| 0 <= i < n && key in pages[..n][i].keys && key in tables[..n][i];
      assert key in pages[i].keys && key in tables[i];
    }
  }

  /** Over a table that stays as it is, the pages together are the whole ordered result. */
  lemma StaticListing(desc: bool, limit: nat, keys: set<Key>, tables: seq<set<Key>>, pages: seq<Page>)
    requires limit >= 1 && Followed(desc, limit, tables, pages) && Ended(pages)
    requires forall i | 0 <= i < |tables| :: tables[i] == keys
    ensures Listed(pages) == Ordered(keys, desc)
  {
    hide Before, PageOf, Listed, Ordered;
    NoRepeats(desc, limit, tables, pages);
    OrderedSpec(keys, desc);
    forall k
      ensures k in Listed(pages) <==> k in keys
    {
      if k in keys {
        NoGaps(desc, limit, tables, pages, k);
      }
      if k in Listed(pages) {
        ListedWasThere(desc, limit, tables, pages, k);
      }
    }
    AscendingUnique(desc, Listed(pages), Ordered(keys, desc));
  }

  lemma {:induction false} FullPages(desc: bool, limit: nat, tables: seq<set<Key>>, pages: seq<Page>)
    requires limit >= 1 && Followed(desc, limit, tables, pages) && pages != [] && pages[|pages| - 1].next.Some?
    ensures |Listed(pages)| == |pages| * limit
    decreases |pages|
  {
    hide Before, PageOf, Ascending, After;
    var n := |pages| - 1;
    assert FollowedAt(desc, limit, tables, pages, n);
    PageSpec(tables[n], desc, CursorOf(pages, n), limit);
    if n > 0 {
      FollowedPrefix(desc, limit, tables, pages);
      FullPages(desc, limit, tables[..n], pages[..n]);
    }
    assert n * limit + limit == (n + 1) * limit;
  }

  lemma {:induction false} AscendingDistinct(desc: bool, s: seq<Key>, keys: set<Key>)
    requires Ascending(desc, s) && forall k | k in s :: k in keys
    ensures |s| <= |keys|
  {
    if s != [] {
      forall k | k in s[1..]
        ensures k in keys - {s[0]}
      {
        BeforeIrreflexive(desc, s[0]);
      }
      AscendingDistinct(desc, s[1..], keys - {s[0]});
    }
  }

  /** Over a table that stays as it is, a page that names a next cursor leaves rows for later, so the
      pages end: there are never |keys| / limit of them with a cursor. */
  lemma StaticPagesEnd(desc: bool, limit: nat, keys: set<Key>, tables: seq<set<Key>>, pages: seq<Page>)
    requires limit >= 1 && Followed(desc, limit, tables, pages) && pages != [] && pages[|pages| - 1].next.Some?
    requires forall i | 0 <= i < |tables| :: tables[i] == keys
    ensures |pages| * limit < |keys|
  {
    hide Before, PageOf, Listed;
    var n := |pages| - 1;
    var c := pages[n].next.value;
    NoRepeats(desc, limit, tables, pages);
    FullPages(desc, limit, tables, pages);
    assert FollowedAt(desc, limit, tables, pages, n);
    PageSpec(tables[n], desc, CursorOf(pages, n), limit);
    var later :| later in After(keys, desc, CursorOf(pages, n)) && Before(desc, c, later);
    forall k | k in Listed(pages)
      ensures k in keys - {later}
    {
      ListedWasThere(desc, limit, tables, pages, k);
      if k == later {
        if k != c {
          BeforeTransitive(desc, k, c, k);
        }
        BeforeIrreflexive(desc, k);
      }
    }
    AscendingDistinct(desc, Listed(pages), keys - {later});
  }
}
