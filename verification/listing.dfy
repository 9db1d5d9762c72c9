/** A read-only snapshot of a directory tree, and the sort-then-filter step applied to
    each directory listing before it is drawn. */
module Listing {
  import opened LexOrder

  /** One directory entry as the renderer meets it. `Inaccessible` is an entry whose
      `stat` fails; a `Dir` whose `listable` flag is false is one whose `readdir` fails. */
  datatype Node =
    | File(name: string)
    | Dir(name: string, listable: bool, entries: seq<Node>)
    | Inaccessible(name: string)

  predicate SortedByName(s: seq<Node>) {
    forall i, j :: 0 <= i < j < |s| ==> Le(s[i].name, s[j].name)
  }

  /** Inserts `x` before the first entry whose name sorts after it. */
  function Insert(x: Node, s: seq<Node>): seq<Node>
  {
    if s == [] || Le(x.name, s[0].name) then [x] + s
    else [s[0]] + Insert(x, s[1..])
  }

  /** `entries.sort()`: the entries rearranged into name order (insertion sort). */
  function SortByName(s: seq<Node>): seq<Node>
  {
    if s == [] then [] else Insert(s[0], SortByName(s[1..]))
  }

  /** `entries.filter(e => !ignored.includes(e))`. */
  function Unignored(s: seq<Node>, ignored: seq<string>): seq<Node>
  {
    if s == [] then []
    else if s[0].name in ignored then Unignored(s[1..], ignored)
    else [s[0]] + Unignored(s[1..], ignored)
  }

  /** The entries of a listing in the order they are drawn: sorted, then filtered. */
  function Listed(entries: seq<Node>, ignored: seq<string>): (r: seq<Node>)
    ensures forall e :: e in r <==> e in entries && e.name !in ignored
  {
    SortByNameSpec(entries);
    UnignoredMembers(SortByName(entries), ignored);
    assert forall e :: e in SortByName(entries) <==> e in entries by {
      forall e ensures e in SortByName(entries) <==> e in entries {
        assert e in SortByName(entries) <==> e in multiset(SortByName(entries));
        assert e in entries <==> e in multiset(entries);
      }
    }
    Unignored(SortByName(entries), ignored)
  }

  /** Inserting adds exactly one element. */
  lemma {:induction false} InsertElements(x: Node, s: seq<Node>)
    ensures multiset(Insert(x, s)) == multiset(s) + multiset{x}
  {
    if s != [] && !Le(x.name, s[0].name) {
      InsertElements(x, s[1..]);
      assert s == [s[0]] + s[1..];
    }
  }

  /** Every name of a sequence sorts after `a`. */
  predicate AllAfter(a: string, s: seq<Node>) {
    forall k :: 0 <= k < |s| ==> Le(a, s[k].name)
  }

  lemma SortedCons(x: Node, t: seq<Node>)
    requires AllAfter(x.name, t) && SortedByName(t)
    ensures SortedByName([x] + t)
  {
    forall a, b | 0 <= a < b < |[x] + t|
      ensures Le(([x] + t)[a].name, ([x] + t)[b].name)
    {
      assert ([x] + t)[b] == t[b - 1];
      if a > 0 {
        assert ([x] + t)[a] == t[a - 1];
      }
    }
  }

  /** Inserting into a sorted sequence keeps it sorted, and every name that came after a
      bound before still does. */
  lemma {:induction false} InsertSorted(x: Node, s: seq<Node>)
    requires SortedByName(s)
    ensures SortedByName(Insert(x, s))
    ensures forall a :: AllAfter(a, s) && Le(a, x.name) ==> AllAfter(a, Insert(x, s))
  {
    if s == [] || Le(x.name, s[0].name) {
      if s != [] {
        forall j | 0 < j < |s| ensures Le(x.name, s[j].name) {
          Transitive(x.name, s[0].name, s[j].name);
        }
      }
      SortedCons(x, s);
      forall a | AllAfter(a, s) && Le(a, x.name) ensures AllAfter(a, [x] + s) {
        assert forall k :: 0 < k < |[x] + s| ==> ([x] + s)[k] == s[k - 1];
      }
    } else {
      Total(x.name, s[0].name);
      InsertSorted(x, s[1..]);
      var t := Insert(x, s[1..]);
      assert AllAfter(s[0].name, s[1..]);
      assert AllAfter(s[0].name, t);
      SortedCons(s[0], t);
      forall a | AllAfter(a, s) && Le(a, x.name) ensures AllAfter(a, [s[0]] + t) {
        assert AllAfter(a, s[1..]);
        assert forall k :: 0 < k < |[s[0]] + t| ==> ([s[0]] + t)[k] == t[k - 1];
      }
    }
  }

  /** Sorting yields a name-sorted rearrangement of the listing. */
  lemma {:induction false} SortByNameSpec(s: seq<Node>)
    ensures SortedByName(SortByName(s))
    ensures multiset(SortByName(s)) == multiset(s)
  {
    if s != [] {
      SortByNameSpec(s[1..]);
      InsertElements(s[0], SortByName(s[1..]));
      InsertSorted(s[0], SortByName(s[1..]));
      assert s == [s[0]] + s[1..];
    }
  }

  /** Filtering keeps exactly the entries whose names are not ignored. */
  lemma {:induction false} UnignoredMembers(s: seq<Node>, ignored: seq<string>)
    ensures forall e :: e in Unignored(s, ignored) <==> e in s && e.name !in ignored
  {
    if s != [] {
      UnignoredMembers(s[1..], ignored);
      assert s == [s[0]] + s[1..];
    }
  }

  /** Filtering keeps the order, so a sorted listing stays sorted, and a bound below every
      name stays below every kept name. */
  lemma {:induction false} UnignoredSorted(s: seq<Node>, ignored: seq<string>)
    requires SortedByName(s)
    ensures SortedByName(Unignored(s, ignored))
    ensures forall a :: AllAfter(a, s) ==> AllAfter(a, Unignored(s, ignored))
  {
    if s != [] {
      UnignoredSorted(s[1..], ignored);
      var t := Unignored(s[1..], ignored);
      forall a | AllAfter(a, s) ensures AllAfter(a, s[1..]) {
        assert forall k :: 0 <= k < |s[1..]| ==> s[1..][k] == s[k + 1];
      }
      if s[0].name !in ignored {
        assert AllAfter(s[0].name, s[1..]) by {
          assert forall k :: 0 <= k < |s[1..]| ==> s[1..][k] == s[k + 1];
        }
        SortedCons(s[0], t);
        forall a | AllAfter(a, s) ensures AllAfter(a, [s[0]] + t) {
          assert Le(a, s[0].name);
          assert forall k :: 0 < k < |[s[0]] + t| ==> ([s[0]] + t)[k] == t[k - 1];
        }
      }
    }
  }

  /** The drawn order of a listing is name order. */
  lemma ListedSorted(entries: seq<Node>, ignored: seq<string>)
    ensures SortedByName(Listed(entries, ignored))
  {
    SortByNameSpec(entries);
    UnignoredSorted(SortByName(entries), ignored);
  }
}
