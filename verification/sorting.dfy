/** Putting entries in the order of a number they carry. */
module Sorting {
  function Insert<T(!new)>(key: T -> int, x: T, s: seq<T>): (r: seq<T>)
    ensures |r| == |s| + 1 && forall y :: y in r <==> y == x || y in s
  {
    if s == [] || key(x) <= key(s[0]) then [x] + s else [s[0]] + Insert(key, x, s[1..])
  }

  function Sort<T(!new)>(key: T -> int, s: seq<T>): (r: seq<T>)
    ensures |r| == |s| && forall y :: y in r <==> y in s
  {
    if s == [] then [] else Insert(key, s[0], Sort(key, s[1..]))
  }

  predicate Ascending<T(!new)>(key: T -> int, s: seq<T>) {
    forall i, j :: 0 <= i < j < |s| ==> key(s[i]) <= key(s[j])
  }

  predicate StrictlyAscending<T(!new)>(key: T -> int, s: seq<T>) {
    forall i, j :: 0 <= i < j < |s| ==> key(s[i]) < key(s[j])
  }

  /** No two entries stand in the relation `clash`. */
  ghost predicate Apart<T(!new)>(clash: (T, T) -> bool, s: seq<T>) {
    forall i, j :: 0 <= i < j < |s| ==> !clash(s[i], s[j])
  }

  ghost predicate Symmetric<T(!new)>(clash: (T, T) -> bool) {
    forall x, y :: clash(x, y) ==> clash(y, x)
  }

  lemma {:induction false} InsertedOrder<T(!new)>(key: T -> int, x: T, s: seq<T>)
    requires Ascending(key, s)
    ensures Ascending(key, Insert(key, x, s))
  {
    if s != [] && key(x) > key(s[0]) {
      InsertedOrder(key, x, s[1..]);
      var rest := Insert(key, x, s[1..]);
      forall j | 0 <= j < |rest| ensures key(s[0]) <= key(rest[j]) {
        assert rest[j] in rest;
      }
    }
  }

  lemma {:induction false} InsertedAdds<T(!new)>(key: T -> int, x: T, s: seq<T>)
    ensures multiset(Insert(key, x, s)) == multiset(s) + multiset{x}
  {
    if s != [] && key(x) > key(s[0]) {
      InsertedAdds(key, x, s[1..]);
      assert s == [s[0]] + s[1..];
    }
  }

  /** The order is ascending, and nothing is lost or gained. */
  lemma {:induction false} SortOrders<T(!new)>(key: T -> int, s: seq<T>)
    ensures Ascending(key, Sort(key, s)) && multiset(Sort(key, s)) == multiset(s)
  {
    if s != [] {
      SortOrders(key, s[1..]);
      InsertedOrder(key, s[0], Sort(key, s[1..]));
      InsertedAdds(key, s[0], Sort(key, s[1..]));
      assert s == [s[0]] + s[1..];
    }
  }

  lemma {:induction false} InsertKeepsApart<T(!new)>(key: T -> int, clash: (T, T) -> bool, x: T, s: seq<T>)
    requires Apart(clash, s) && Symmetric(clash) && forall y :: y in s ==> !clash(x, y)
    ensures Apart(clash, Insert(key, x, s))
  {
    if s != [] && key(x) > key(s[0]) {
      InsertKeepsApart(key, clash, x, s[1..]);
      var rest := Insert(key, x, s[1..]);
      forall j | 0 <= j < |rest| ensures !clash(s[0], rest[j]) {
        assert rest[j] in rest && s[0] in s;
      }
      var r := Insert(key, x, s);
      forall i, j | 0 <= i < j < |r| ensures !clash(r[i], r[j]) {
        if i > 0 { assert r[i] == rest[i - 1] && r[j] == rest[j - 1]; }
      }
    }
  }

  lemma {:induction false} SortKeepsApart<T(!new)>(key: T -> int, clash: (T, T) -> bool, s: seq<T>)
    requires Apart(clash, s) && Symmetric(clash)
    ensures Apart(clash, Sort(key, s))
  {
    if s != [] {
      SortKeepsApart(key, clash, s[1..]);
      forall y | y in s[1..] ensures !clash(s[0], y) {
        var j :| 1 <= j < |s| && s[j] == y;
      }
      InsertKeepsApart(key, clash, s[0], Sort(key, s[1..]));
    }
  }

  lemma SortedAlready<T(!new)>(key: T -> int, s: seq<T>)
    requires StrictlyAscending(key, s)
    ensures Sort(key, s) == s
  {
    SortIsTheOnly(key, s, s);
  }

  /** With distinct keys any ascending arrangement is this one, so which sort is used cannot be told. */
  lemma SortIsTheOnly<T(!new)>(key: T -> int, s: seq<T>, t: seq<T>)
    requires StrictlyAscending(key, t) && multiset(t) == multiset(s)
    ensures Sort(key, s) == t
  {
    SortOrders(key, s);
    SameArrangement(key, Sort(key, s), t);
  }

  lemma TailsAgree<T(!new)>(s: seq<T>, t: seq<T>)
    requires s != [] && t != [] && s[0] == t[0] && multiset(s) == multiset(t)
    ensures multiset(s[1..]) == multiset(t[1..])
  {
    assert s == [s[0]] + s[1..] && t == [t[0]] + t[1..];
    assert multiset(s) == multiset([s[0]]) + multiset(s[1..]);
    assert multiset(s[1..]) == multiset(s) - multiset{s[0]};
    assert multiset(t[1..]) == multiset(t) - multiset{t[0]};
  }

  lemma {:induction false} SameArrangement<T(!new)>(key: T -> int, s: seq<T>, t: seq<T>)
    requires Ascending(key, s) && StrictlyAscending(key, t) && multiset(s) == multiset(t)
    ensures s == t
  {
    assert |s| == |multiset(s)| == |multiset(t)| == |t|;
    if s != [] {
      assert s[0] in multiset(s) && t[0] in multiset(t);
      TailsAgree(s, t);
      SameArrangement(key, s[1..], t[1..]);
      assert s == [s[0]] + s[1..] && t == [t[0]] + t[1..];
    }
  }
}
