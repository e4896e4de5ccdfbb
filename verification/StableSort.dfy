/** The stable ascending sort the Python code gets from its library, as an insertion sort on keyed entries. */
module StableSort {
  import Permutations

  datatype Entry<T> = Entry(key: real, item: T)

  function Items<T>(s: seq<Entry<T>>): (r: seq<T>)
    ensures |r| == |s|
  {
    seq(|s|, k requires 0 <= k < |s| => s[k].item)
  }

  ghost predicate Ascending<T>(s: seq<Entry<T>>) {
    forall i, j :: 0 <= i < j < |s| ==> s[i].key <= s[j].key
  }

  /** Places `x` after every entry whose key is not larger, so equal keys keep their input order. */
  function Insert<T>(x: Entry<T>, s: seq<Entry<T>>): (r: seq<Entry<T>>)
    ensures |r| == |s| + 1
  {
    if s == [] || s[|s| - 1].key <= x.key then s + [x] else Insert(x, s[..|s| - 1]) + [s[|s| - 1]]
  }

  lemma {:induction false} InsertKeeps<T>(x: Entry<T>, s: seq<Entry<T>>)
    ensures multiset(Insert(x, s)) == multiset(s) + multiset{x}
  {
    if s != [] && s[|s| - 1].key > x.key {
      InsertKeeps(x, s[..|s| - 1]);
      assert s == s[..|s| - 1] + [s[|s| - 1]];
    }
  }

  lemma {:induction false} InsertAscends<T>(x: Entry<T>, s: seq<Entry<T>>)
    requires Ascending(s)
    ensures Ascending(Insert(x, s))
  {
    if s != [] && s[|s| - 1].key > x.key {
      var init, last := s[..|s| - 1], s[|s| - 1];
      InsertAscends(x, init);
      InsertKeeps(x, init);
      var r := Insert(x, init);
      forall i | 0 <= i < |r| ensures r[i].key <= last.key {
        assert r[i] in multiset(r);
        assert r[i] == x || r[i] in init;
      }
    }
  }

  function Sort<T>(s: seq<Entry<T>>): (r: seq<Entry<T>>)
    ensures |r| == |s|
  {
    if s == [] then [] else Insert(s[|s| - 1], Sort(s[..|s| - 1]))
  }

  /** Sorting keeps the entries and puts them in order. */
  lemma {:induction false} SortSorts<T>(s: seq<Entry<T>>)
    ensures multiset(Sort(s)) == multiset(s) && Ascending(Sort(s))
  {
    if s != [] {
      var init, last := s[..|s| - 1], s[|s| - 1];
      SortSorts(init);
      InsertKeeps(last, Sort(init));
      InsertAscends(last, Sort(init));
      assert s == init + [last];
    }
  }

  /** The entries of one key, in order. */
  function WithKey<T>(s: seq<Entry<T>>, key: real): seq<Entry<T>> {
    if s == [] then []
    else
      var last := s[|s| - 1];
      WithKey(s[..|s| - 1], key) + if last.key == key then [last] else []
  }

  lemma WithKeyAppend<T>(s: seq<Entry<T>>, x: Entry<T>, key: real)
    ensures WithKey(s + [x], key) == WithKey(s, key) + if x.key == key then [x] else []
  {
    assert (s + [x])[..|s|] == s;
  }

  lemma {:induction false} InsertIsStable<T>(x: Entry<T>, s: seq<Entry<T>>, key: real)
    ensures WithKey(Insert(x, s), key) == WithKey(s, key) + if x.key == key then [x] else []
  {
    if s == [] || s[|s| - 1].key <= x.key {
      WithKeyAppend(s, x, key);
    } else {
      var init, last := s[..|s| - 1], s[|s| - 1];
      InsertIsStable(x, init, key);
      WithKeyAppend(Insert(x, init), last, key);
    }
  }

  /** Entries of equal key keep their input order. */
  lemma {:induction false} SortIsStable<T>(s: seq<Entry<T>>, key: real)
    ensures WithKey(Sort(s), key) == WithKey(s, key)
  {
    if s != [] {
      var init, last := s[..|s| - 1], s[|s| - 1];
      SortIsStable(init, key);
      InsertIsStable(last, Sort(init), key);
    }
  }

  lemma InsertLast<T>(x: Entry<T>, s: seq<Entry<T>>)
    requires s == [] || s[|s| - 1].key <= x.key
    ensures Insert(x, s) == s + [x]
  {
  }

  lemma SortStep<T>(s: seq<Entry<T>>, init: seq<Entry<T>>, last: Entry<T>)
    requires s == init + [last]
    ensures Sort(s) == Insert(last, Sort(init))
  {
    assert s[..|s| - 1] == init;
  }

  lemma {:induction false} SortOfPrefix<T>(s: seq<Entry<T>>, n: nat)
    requires Ascending(s) && n <= |s|
    ensures Sort(s[..n]) == s[..n]
    decreases n
  {
    if n > 0 {
      var init, last := s[..n - 1], s[n - 1];
      SortOfPrefix(s, n - 1);
      SortStep(s[..n], init, last);
      InsertLast(last, init);
    }
  }

  /** Sorting entries that are already in order changes nothing. */
  lemma SortOfAscending<T>(s: seq<Entry<T>>)
    requires Ascending(s)
    ensures Sort(s) == s
  {
    SortOfPrefix(s, |s|);
    assert s[..|s|] == s;
  }
}
