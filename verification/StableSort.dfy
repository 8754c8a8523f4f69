/** `Array.prototype.sort` with a comparator that subtracts keys: ascending by key, equal keys keep their order. */
module StableSort {

  ghost predicate Sorted<T>(s: seq<T>, key: T -> real) {
    forall i, j :: 0 <= i < j < |s| ==> key(s[i]) <= key(s[j])
  }

  /** Places `x` after every element of a sorted `s` whose key is not above its own. */
  function Insert<T>(s: seq<T>, x: T, key: T -> real): seq<T> {
    if s == [] || key(s[|s| - 1]) <= key(x) then s + [x]
    else Insert(s[..|s| - 1], x, key) + [s[|s| - 1]]
  }

  function SortBy<T>(s: seq<T>, key: T -> real): seq<T> {
    if s == [] then [] else Insert(SortBy(s[..|s| - 1], key), s[|s| - 1], key)
  }

  /** The elements with one particular key, in order. */
  function WithKey<T>(s: seq<T>, key: T -> real, k: real): seq<T> {
    if s == [] then []
    else WithKey(s[..|s| - 1], key, k) + if key(s[|s| - 1]) == k then [s[|s| - 1]] else []
  }

  lemma {:induction false} InsertKeeps<T>(s: seq<T>, x: T, key: T -> real)
    ensures multiset(Insert(s, x, key)) == multiset(s) + multiset{x}
    ensures |Insert(s, x, key)| == |s| + 1
    ensures Sorted(s, key) ==> Sorted(Insert(s, x, key), key)
    ensures forall y :: y in Insert(s, x, key) ==> y in s || y == x
  {
    if s == [] || key(s[|s| - 1]) <= key(x) {
    } else {
      var front, last := s[..|s| - 1], s[|s| - 1];
      assert s == front + [last];
      InsertKeeps(front, x, key);
      var r := Insert(front, x, key);
      if Sorted(s, key) {
        forall i, j | 0 <= i < j < |r| + 1
          ensures key((r + [last])[i]) <= key((r + [last])[j])
        {
          if j == |r| {
            assert r[i] in front || r[i] == x;
          }
        }
      }
    }
  }

  lemma {:induction false} InsertIsStable<T>(s: seq<T>, x: T, key: T -> real, k: real)
    requires Sorted(s, key)
    ensures WithKey(Insert(s, x, key), key, k) == WithKey(s, key, k) + if key(x) == k then [x] else []
  {
    if s == [] || key(s[|s| - 1]) <= key(x) {
      assert (s + [x])[..|s|] == s;
    } else {
      var front, last := s[..|s| - 1], s[|s| - 1];
      InsertIsStable(front, x, key, k);
      var r := Insert(front, x, key);
      assert (r + [last])[..|r|] == r;
      if key(last) == k && key(x) == k {
        assert false;
      }
    }
  }

  /** Sorting permutes its input, orders it by key, and keeps the relative order of equal keys. */
  lemma {:induction false} SortByCorrect<T>(s: seq<T>, key: T -> real)
    ensures multiset(SortBy(s, key)) == multiset(s)
    ensures |SortBy(s, key)| == |s|
    ensures Sorted(SortBy(s, key), key)
    ensures forall k :: WithKey(SortBy(s, key), key, k) == WithKey(s, key, k)
  {
    if s != [] {
      var front, last := s[..|s| - 1], s[|s| - 1];
      assert s == front + [last];
      SortByCorrect(front, key);
      InsertKeeps(SortBy(front, key), last, key);
      forall k
        ensures WithKey(SortBy(s, key), key, k) == WithKey(s, key, k)
      {
        InsertIsStable(SortBy(front, key), last, key, k);
      }
    }
  }

  // ---- There is only one such order ----

  lemma {:induction false} KeyOccurs<T>(s: seq<T>, key: T -> real, k: real)
    ensures WithKey(s, key, k) != [] <==> exists i :: 0 <= i < |s| && key(s[i]) == k
  {
    if s != [] {
      var front := s[..|s| - 1];
      KeyOccurs(front, key, k);
      assert s == front + [s[|s| - 1]];
    }
  }

  ghost predicate SameGroup<T(!new)>(s: seq<T>, t: seq<T>, key: T -> real, k: real) {
    WithKey(s, key, k) == WithKey(t, key, k)
  }

  ghost predicate SameGroups<T(!new)>(s: seq<T>, t: seq<T>, key: T -> real) {
    forall k :: SameGroup(s, t, key, k)
  }

  lemma SameLast<T(!new)>(s: seq<T>, t: seq<T>, key: T -> real)
    requires Sorted(s, key) && Sorted(t, key) && SameGroups(s, t, key) && s != []
    ensures t != [] && s[|s| - 1] == t[|t| - 1]
  {
    var a := s[|s| - 1];
    KeyOccurs(s, key, key(a));
    KeyOccurs(t, key, key(a));
    assert SameGroup(s, t, key, key(a));
    var b := t[|t| - 1];
    KeyOccurs(t, key, key(b));
    KeyOccurs(s, key, key(b));
    assert SameGroup(s, t, key, key(b));
    assert key(a) == key(b);
    var ga, gb := WithKey(s, key, key(a)), WithKey(t, key, key(a));
    assert ga[|ga| - 1] == a && gb[|gb| - 1] == b;
  }

  lemma FrontsKeepGroup<T(!new)>(s: seq<T>, t: seq<T>, key: T -> real, k: real)
    requires s != [] && t != [] && s[|s| - 1] == t[|t| - 1] && SameGroup(s, t, key, k)
    ensures SameGroup(s[..|s| - 1], t[..|t| - 1], key, k)
  {
    var fs, ft := WithKey(s[..|s| - 1], key, k), WithKey(t[..|t| - 1], key, k);
    var whole := WithKey(s, key, k);
    if key(s[|s| - 1]) == k {
      assert whole == fs + [s[|s| - 1]] && whole == ft + [s[|s| - 1]];
      assert fs == whole[..|whole| - 1] && ft == whole[..|whole| - 1];
    } else {
      assert whole == fs + [] && whole == ft + [];
      assert fs == whole && ft == whole;
    }
  }

  /** Ascending keys and unchanged groups of equal keys leave no choice. */
  lemma {:induction false} StableOrderIsUnique<T(!new)>(s: seq<T>, t: seq<T>, key: T -> real)
    requires Sorted(s, key) && Sorted(t, key) && SameGroups(s, t, key)
    ensures s == t
  {
    if s != [] {
      SameLast(s, t, key);
      var fs, ft := s[..|s| - 1], t[..|t| - 1];
      forall k: real
        ensures SameGroup(fs, ft, key, k)
      {
        assert SameGroup(s, t, key, k);
        FrontsKeepGroup(s, t, key, k);
      }
      StableOrderIsUnique(fs, ft, key);
      assert s == s[..|s| - 1] + [s[|s| - 1]] && t == t[..|t| - 1] + [t[|t| - 1]];
    } else if t != [] {
      assert forall k :: SameGroup(s, t, key, k) ==> SameGroup(t, s, key, k);
      SameLast(t, s, key);
    }
  }

  // ---- Time order ----

  function SortByTime<T>(s: seq<T>, time: T -> int): seq<T> {
    SortBy(s, x => time(x) as real)
  }

  /** The elements of one moment, in their given order. */
  function At<T>(s: seq<T>, time: T -> int, t: int): seq<T> {
    if s == [] then []
    else At(s[..|s| - 1], time, t) + if time(s[|s| - 1]) == t then [s[|s| - 1]] else []
  }

  /** `history` holds the same elements, oldest first, and those of one moment in the order in which they were supplied. */
  ghost predicate IsTimeOrder<T(!new)>(s: seq<T>, history: seq<T>, time: T -> int) {
    && multiset(history) == multiset(s)
    && (forall i, j :: 0 <= i < j < |history| ==> time(history[i]) <= time(history[j]))
    && (forall t: int :: At(history, time, t) == At(s, time, t))
  }

  lemma {:induction false} AtIsGroup<T>(s: seq<T>, time: T -> int, t: int)
    ensures WithKey(s, x => time(x) as real, t as real) == At(s, time, t)
  {
    if s != [] {
      AtIsGroup(s[..|s| - 1], time, t);
    }
  }

  lemma {:induction false} NothingInBetween<T>(s: seq<T>, time: T -> int, k: real)
    requires k != k.Floor as real
    ensures WithKey(s, x => time(x) as real, k) == []
  {
    if s != [] {
      NothingInBetween(s[..|s| - 1], time, k);
    }
  }

  lemma SortedIsTimeOrder<T(!new)>(s: seq<T>, time: T -> int)
    ensures IsTimeOrder(s, SortByTime(s, time), time)
  {
    var key: T -> real := x => time(x) as real;
    var history := SortByTime(s, time);
    SortByCorrect(s, key);
    forall i, j | 0 <= i < j < |history|
      ensures time(history[i]) <= time(history[j])
    {
      assert key(history[i]) <= key(history[j]);
    }
    forall t: int
      ensures At(history, time, t) == At(s, time, t)
    {
      AtIsGroup(history, time, t);
      AtIsGroup(s, time, t);
    }
  }

  /** There is exactly one time order. */
  lemma TimeOrderIsUnique<T(!new)>(s: seq<T>, history: seq<T>, time: T -> int)
    requires IsTimeOrder(s, history, time)
    ensures history == SortByTime(s, time)
  {
    var key: T -> real := x => time(x) as real;
    var sorted := SortByTime(s, time);
    SortedIsTimeOrder(s, time);
    hide SortByTime;
    forall i, j | 0 <= i < j < |sorted|
      ensures key(sorted[i]) <= key(sorted[j])
    {
      assert time(sorted[i]) <= time(sorted[j]);
    }
    forall k: real
      ensures SameGroup(history, sorted, key, k)
    {
      if k == k.Floor as real {
        AtIsGroup(history, time, k.Floor);
        AtIsGroup(sorted, time, k.Floor);
      } else {
        NothingInBetween(history, time, k);
        NothingInBetween(sorted, time, k);
      }
    }
    StableOrderIsUnique(history, sorted, key);
  }
}
