/** Stable sorting by an integer key, as the program's two sorts promise it. */
module StableSort {

  predicate Sorted<T>(s: seq<T>, key: T -> int) {
    forall i, j :: 0 <= i < j < |s| ==> key(s[i]) <= key(s[j])
  }

  /** The elements with key `k`, in order. */
  function WithKey<T>(s: seq<T>, key: T -> int, k: int): seq<T> {
    if s == [] then []
    else WithKey(s[..|s| - 1], key, k) + (if key(s[|s| - 1]) == k then [s[|s| - 1]] else [])
  }

  /** `t` is `s` sorted, elements with equal keys in their old order. */
  ghost predicate StablySorted<T>(s: seq<T>, t: seq<T>, key: T -> int) {
    Sorted(t, key) && forall k :: WithKey(t, key, k) == WithKey(s, key, k)
  }

  /** Puts `x` behind the last element whose key is not greater. */
  function Insert<T>(s: seq<T>, x: T, key: T -> int): seq<T> {
    if s == [] || key(s[|s| - 1]) <= key(x) then s + [x]
    else Insert(s[..|s| - 1], x, key) + [s[|s| - 1]]
  }

  function Sort<T>(s: seq<T>, key: T -> int): seq<T> {
    if s == [] then [] else Insert(Sort(s[..|s| - 1], key), s[|s| - 1], key)
  }

  lemma {:induction false} InsertKeeps<T>(s: seq<T>, x: T, key: T -> int)
    requires Sorted(s, key)
    ensures Sorted(Insert(s, x, key), key) && |Insert(s, x, key)| == |s| + 1
    ensures forall i :: 0 <= i < |s| + 1 ==> Insert(s, x, key)[i] == x || Insert(s, x, key)[i] in s
  {
    if s != [] && key(s[|s| - 1]) > key(x) {
      InsertKeeps(s[..|s| - 1], x, key);
    }
  }

  lemma {:induction false} InsertKeyed<T>(s: seq<T>, x: T, key: T -> int, k: int)
    requires Sorted(s, key)
    ensures WithKey(Insert(s, x, key), key, k) == WithKey(s, key, k) + (if key(x) == k then [x] else [])
  {
    if s == [] || key(s[|s| - 1]) <= key(x) {
      assert (s + [x])[..|s|] == s;
    } else {
      var init, last := s[..|s| - 1], s[|s| - 1];
      InsertKeyed(init, x, key, k);
      assert (Insert(init, x, key) + [last])[..|Insert(init, x, key)|] == Insert(init, x, key);
      if key(x) == k { WithKeyEmpty(s, key, key(last)); }
    }
  }

  lemma {:induction false} WithKeyEmpty<T>(s: seq<T>, key: T -> int, k: int)
    ensures WithKey(s, key, k) == [] <==> forall i :: 0 <= i < |s| ==> key(s[i]) != k
  {
    if s != [] { WithKeyEmpty(s[..|s| - 1], key, k); }
  }

  lemma {:induction false} SortSorts<T>(s: seq<T>, key: T -> int)
    ensures StablySorted(s, Sort(s, key), key)
    ensures |Sort(s, key)| == |s|
  {
    if s != [] {
      var init := s[..|s| - 1];
      SortSorts(init, key);
      InsertKeeps(Sort(init, key), s[|s| - 1], key);
      forall k ensures WithKey(Sort(s, key), key, k) == WithKey(s, key, k) {
        InsertKeyed(Sort(init, key), s[|s| - 1], key, k);
      }
    }
  }

  /** A stable sort has only one result. */
  lemma StablySortedIsUnique<T>(s: seq<T>, t: seq<T>, u: seq<T>, key: T -> int)
    requires StablySorted(s, t, key) && StablySorted(s, u, key)
    ensures t == u
  {
    SameKeyed(t, u, key);
  }

  ghost predicate Alike<T>(t: seq<T>, u: seq<T>, key: T -> int) {
    Sorted(t, key) && Sorted(u, key) && forall k :: WithKey(t, key, k) == WithKey(u, key, k)
  }

  lemma {:induction false} KeyedInit<T>(t: seq<T>, key: T -> int, k: int)
    requires t != []
    ensures if key(t[|t| - 1]) == k then WithKey(t, key, k) == WithKey(t[..|t| - 1], key, k) + [t[|t| - 1]]
            else WithKey(t, key, k) == WithKey(t[..|t| - 1], key, k)
  {}

  lemma {:induction false} SameLast<T>(t: seq<T>, u: seq<T>, key: T -> int)
    requires Alike(t, u, key) && t != []
    ensures u != [] && t[|t| - 1] == u[|u| - 1]
  {
    var x := t[|t| - 1];
    WithKeyEmpty(t, key, key(x));
    WithKeyEmpty(u, key, key(x));
    var y := u[|u| - 1];
    WithKeyEmpty(t, key, key(y));
    WithKeyEmpty(u, key, key(y));
    assert WithKey(t, key, key(x)) == WithKey(u, key, key(x));
    assert WithKey(t, key, key(y)) == WithKey(u, key, key(y));
    assert key(x) == key(y);
    var xs := WithKey(t, key, key(x));
    KeyedInit(t, key, key(x));
    KeyedInit(u, key, key(x));
    assert xs[|xs| - 1] == x && xs[|xs| - 1] == y;
  }

  lemma {:induction false} SameKeyed<T>(t: seq<T>, u: seq<T>, key: T -> int)
    requires Alike(t, u, key)
    ensures t == u
    decreases |t|
  {
    if t == [] {
      if u != [] { SameLast(u, t, key); }
    } else {
      SameLast(t, u, key);
      var t', u', x := t[..|t| - 1], u[..|u| - 1], t[|t| - 1];
      forall k ensures WithKey(t', key, k) == WithKey(u', key, k) {
        KeyedInit(t, key, k);
        KeyedInit(u, key, k);
        assert WithKey(t, key, k) == WithKey(u, key, k);
        if key(x) == k {
          var xs := WithKey(t, key, k);
          assert WithKey(t', key, k) == xs[..|xs| - 1] == WithKey(u', key, k);
        }
      }
      SameKeyed(t', u', key);
      assert t == t' + [x] && u == u' + [x];
    }
  }
}
