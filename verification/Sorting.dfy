/** The stable sort by a number that Python's `list.sort` and JavaScript's `Array.sort` perform. */
module Sorting {
  predicate Ascending<T>(s: seq<T>, key: T -> int) {
    forall i, j | 0 <= i < j < |s| :: key(s[i]) <= key(s[j])
  }

  predicate Strict<T>(s: seq<T>, key: T -> int) {
    forall i, j | 0 <= i < j < |s| :: key(s[i]) < key(s[j])
  }

  /** Behind every element that sorts no later. */
  function Insert<T>(s: seq<T>, x: T, key: T -> int): seq<T> {
    var n := |s|;
    if n == 0 || key(s[n - 1]) <= key(x) then s + [x] else Insert(s[..n - 1], x, key) + [s[n - 1]]
  }

  function Sort<T>(s: seq<T>, key: T -> int): seq<T> {
    var n := |s|;
    if n == 0 then [] else Insert(Sort(s[..n - 1], key), s[n - 1], key)
  }

  lemma {:induction false} InsertKeeps<T>(s: seq<T>, x: T, key: T -> int)
    ensures multiset(Insert(s, x, key)) == multiset(s) + multiset{x}
  {
    var n := |s|;
    if n > 0 && key(s[n - 1]) > key(x) {
      InsertKeeps(s[..n - 1], x, key);
      assert s == s[..n - 1] + [s[n - 1]];
    }
  }

  lemma {:induction false} SortKeeps<T>(s: seq<T>, key: T -> int)
    ensures multiset(Sort(s, key)) == multiset(s)
  {
    var n := |s|;
    if n > 0 {
      SortKeeps(s[..n - 1], key);
      InsertKeeps(Sort(s[..n - 1], key), s[n - 1], key);
      assert s == s[..n - 1] + [s[n - 1]];
    }
  }

  lemma SortMembers<T>(s: seq<T>, key: T -> int, x: T)
    ensures x in Sort(s, key) <==> x in s
  {
    SortKeeps(s, key);
    assert x in s <==> x in multiset(s);
    assert x in Sort(s, key) <==> x in multiset(Sort(s, key));
  }

  lemma {:induction false} InsertAscends<T>(s: seq<T>, x: T, key: T -> int)
    requires Ascending(s, key)
    ensures Ascending(Insert(s, x, key), key)
  {
    var n := |s|;
    if n > 0 && key(s[n - 1]) > key(x) {
      var rest := Insert(s[..n - 1], x, key);
      InsertAscends(s[..n - 1], x, key);
      InsertKeeps(s[..n - 1], x, key);
      forall i | 0 <= i < |rest| ensures key(rest[i]) <= key(s[n - 1]) {
        assert rest[i] in multiset(rest);
        assert rest[i] == x || rest[i] in multiset(s[..n - 1]);
      }
    }
  }

  lemma {:induction false} SortAscends<T>(s: seq<T>, key: T -> int)
    ensures Ascending(Sort(s, key), key)
  {
    var n := |s|;
    if n > 0 {
      SortAscends(s[..n - 1], key);
      InsertAscends(Sort(s[..n - 1], key), s[n - 1], key);
    }
  }

  lemma Rest<T>(s: seq<T>)
    requires s != []
    ensures multiset(s[1..]) == multiset(s) - multiset{s[0]} && s[0] in multiset(s)
  {
    assert s == [s[0]] + s[1..];
  }

  lemma SameLeast<T>(s: seq<T>, t: seq<T>, key: T -> int)
    requires Ascending(s, key) && Strict(t, key) && s != [] && t != []
    requires s[0] in multiset(t) && t[0] in multiset(s)
    ensures s[0] == t[0]
  {
    var i :| 0 <= i < |t| && t[i] == s[0];
    var j :| 0 <= j < |s| && s[j] == t[0];
    assert key(s[0]) <= key(s[j]);
  }

  lemma SameSize<T>(s: seq<T>, t: seq<T>)
    requires multiset(s) == multiset(t)
    ensures |s| == |t|
  {
    assert |multiset(s)| == |s| && |multiset(t)| == |t|;
  }

  lemma Tails<T>(s: seq<T>, t: seq<T>, key: T -> int)
    requires Ascending(s, key) && Strict(t, key) && |s| > 0 && |t| > 0
    ensures Ascending(s[1..], key) && Strict(t[1..], key)
  {
  }

  /** The one ascending arrangement of elements with different keys. */
  lemma {:induction false} OneArrangement<T>(s: seq<T>, t: seq<T>, key: T -> int)
    requires Ascending(s, key) && Strict(t, key) && multiset(s) == multiset(t)
    ensures s == t
  {
    hide Ascending, Strict;
    SameSize(s, t);
    if s != [] {
      Rest(s);
      Rest(t);
      SameLeast(s, t, key);
      Tails(s, t, key);
      OneArrangement(s[1..], t[1..], key);
      assert s == [s[0]] + s[1..] && t == [t[0]] + t[1..];
    }
  }

  /** Whatever the order they come in, elements with different keys sort to their one ascending arrangement. */
  lemma SortIs<T>(s: seq<T>, t: seq<T>, key: T -> int)
    requires Strict(t, key) && multiset(s) == multiset(t)
    ensures Sort(s, key) == t
  {
    SortKeeps(s, key);
    SortAscends(s, key);
    OneArrangement(Sort(s, key), t, key);
  }
}
