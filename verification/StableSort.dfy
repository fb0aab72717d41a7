/** Python's stable `sort` by a key. */
module StableSort {

  datatype Key = Key(major: int, minor: real)

  predicate Less(a: Key, b: Key) {
    a.major < b.major || (a.major == b.major && a.minor < b.minor)
  }

  /** `x` goes behind everything that is not greater. */
  function Insert<T>(key: T -> Key, s: seq<T>, x: T): seq<T> {
    if s == [] then [x]
    else
      var n := |s| - 1;
      if Less(key(x), key(s[n])) then Insert(key, s[..n], x) + [s[n]] else s + [x]
  }

  function Sort<T>(key: T -> Key, s: seq<T>): seq<T> {
    if s == [] then [] else Insert(key, Sort(key, s[..|s| - 1]), s[|s| - 1])
  }

  ghost predicate Sorted<T>(key: T -> Key, s: seq<T>) {
    forall i, j | 0 <= i < j < |s| :: !Less(key(s[j]), key(s[i]))
  }

  /** Where `x` goes. */
  function Place<T>(key: T -> Key, s: seq<T>, x: T): (k: nat)
    ensures k <= |s|
    ensures k > 0 ==> !Less(key(x), key(s[k - 1]))
    ensures forall i | k <= i < |s| :: Less(key(x), key(s[i]))
  {
    if s == [] then 0
    else
      var n := |s| - 1;
      if Less(key(x), key(s[n])) then Place(key, s[..n], x) else n + 1
  }

  lemma {:induction false} InsertIsAtPlace<T>(key: T -> Key, s: seq<T>, x: T)
    ensures var k := Place(key, s, x); Insert(key, s, x) == s[..k] + [x] + s[k..]
  {
    hide Less;
    if s != [] {
      var n := |s| - 1;
      if Less(key(x), key(s[n])) {
        InsertIsAtPlace(key, s[..n], x);
        AroundLast(s, Place(key, s[..n], x), x);
      } else {
        assert s[..n + 1] == s && s[n + 1..] == [];
      }
    }
  }

  lemma AroundLast<T>(s: seq<T>, k: nat, x: T)
    requires k < |s|
    ensures var t := s[..|s| - 1]; t[..k] + [x] + t[k..] + [s[|s| - 1]] == s[..k] + [x] + s[k..]
  {
  }

  lemma {:induction false} InsertKeepsSorted<T>(key: T -> Key, s: seq<T>, x: T)
    requires Sorted(key, s)
    ensures Sorted(key, Insert(key, s, x))
  {
    var k := Place(key, s, x);
    InsertIsAtPlace(key, s, x);
    var r := Insert(key, s, x);
    forall i, j | 0 <= i < j < |r|
      ensures !Less(key(r[j]), key(r[i]))
    {
      if j == k && i < k - 1 { assert !Less(key(s[k - 1]), key(s[i])); }
    }
  }

  lemma {:induction false} SortIsSorted<T>(key: T -> Key, s: seq<T>)
    ensures Sorted(key, Sort(key, s))
  {
    hide Sorted, Insert;
    if s == [] {
      NothingIsSorted(key);
    } else {
      SortIsSorted(key, s[..|s| - 1]);
      InsertKeepsSorted(key, Sort(key, s[..|s| - 1]), s[|s| - 1]);
    }
  }

  lemma NothingIsSorted<T>(key: T -> Key)
    ensures Sorted(key, [])
  {
  }

  lemma {:induction false} SortedIsFixed<T>(key: T -> Key, s: seq<T>)
    requires Sorted(key, s)
    ensures Sort(key, s) == s
  {
    if s != [] {
      var n := |s| - 1;
      SortedIsFixed(key, s[..n]);
      if n > 0 {
        assert !Less(key(s[n]), key(s[n - 1]));
      }
      assert s == s[..n] + [s[n]];
    }
  }

  /** Appending to a sorted list and sorting again is inserting. */
  lemma {:induction false} AppendThenSort<T>(key: T -> Key, s: seq<T>, x: T)
    requires Sorted(key, s)
    ensures Sort(key, s + [x]) == Insert(key, s, x)
  {
    assert (s + [x])[..|s|] == s;
    SortedIsFixed(key, s);
  }

  // ----- a stable rearrangement -----

  /** The elements with a given key, in order. */
  function WithKey<T>(key: T -> Key, s: seq<T>, k: Key): seq<T> {
    if s == [] then []
    else if key(s[|s| - 1]) == k then WithKey(key, s[..|s| - 1], k) + [s[|s| - 1]]
    else WithKey(key, s[..|s| - 1], k)
  }

  lemma {:induction false} WithKeyConcat<T>(key: T -> Key, a: seq<T>, b: seq<T>, k: Key)
    ensures WithKey(key, a + b, k) == WithKey(key, a, k) + WithKey(key, b, k)
  {
    if b == [] {
      assert a + b == a;
    } else {
      WithKeyConcat(key, a, b[..|b| - 1], k);
      assert (a + b)[..|a + b| - 1] == a + b[..|b| - 1];
    }
  }

  lemma {:induction false} NoneWithKey<T>(key: T -> Key, s: seq<T>, k: Key)
    requires forall x | x in s :: key(x) != k
    ensures WithKey(key, s, k) == []
  {
    if s != [] {
      NoneWithKey(key, s[..|s| - 1], k);
    }
  }

  lemma {:induction false} InsertIsStable<T>(key: T -> Key, s: seq<T>, x: T, k: Key)
    ensures WithKey(key, Insert(key, s, x), k) == WithKey(key, s + [x], k)
  {
    hide Less, Insert;
    var p := Place(key, s, x);
    InsertIsAtPlace(key, s, x);
    assert s == s[..p] + s[p..];
    WithKeyConcat(key, s[..p] + [x], s[p..], k);
    WithKeyConcat(key, s[..p], [x], k);
    WithKeyConcat(key, s[..p], s[p..], k);
    WithKeyConcat(key, s, [x], k);
    if key(x) == k {
      GreaterHaveOtherKeys(key, s, x);
      NoneWithKey(key, s[p..], k);
    } else {
      NoneWithKey(key, [x], k);
    }
  }

  lemma {:induction false} GreaterHaveOtherKeys<T>(key: T -> Key, s: seq<T>, x: T)
    ensures forall y | y in s[Place(key, s, x)..] :: key(y) != key(x)
  {
  }

  /** Elements with equal keys keep their order. */
  lemma {:induction false} SortIsStable<T>(key: T -> Key, s: seq<T>, k: Key)
    ensures WithKey(key, Sort(key, s), k) == WithKey(key, s, k)
  {
    hide Insert, WithKey;
    if s == [] {
      assert Sort(key, s) == s;
    } else {
      var n := |s| - 1;
      SortIsStable(key, s[..n], k);
      InsertIsStable(key, Sort(key, s[..n]), s[n], k);
      WithKeyConcat(key, Sort(key, s[..n]), [s[n]], k);
      WithKeyConcat(key, s[..n], [s[n]], k);
      assert s == s[..n] + [s[n]];
    }
  }

  lemma {:induction false} SortIsPermutation<T>(key: T -> Key, s: seq<T>)
    ensures multiset(Sort(key, s)) == multiset(s) && |Sort(key, s)| == |s|
  {
    if s != [] {
      var n := |s| - 1;
      SortIsPermutation(key, s[..n]);
      InsertAddsOne(key, Sort(key, s[..n]), s[n]);
      assert s == s[..n] + [s[n]];
    }
  }

  lemma {:induction false} InsertAddsOne<T>(key: T -> Key, s: seq<T>, x: T)
    ensures multiset(Insert(key, s, x)) == multiset(s) + multiset{x} && |Insert(key, s, x)| == |s| + 1
  {
    hide Insert, Place, Less;
    var k := Place(key, s, x);
    InsertIsAtPlace(key, s, x);
    assert s == s[..k] + s[k..];
    assert multiset(s[..k] + [x] + s[k..]) == multiset(s[..k]) + multiset{x} + multiset(s[k..]);
  }

  /** A sorted, stable rearrangement is unique: whatever algorithm does the sorting, this is its result. */
  lemma {:induction false} StableOrderIsUnique<T>(key: T -> Key, s: seq<T>, t: seq<T>)
    requires Sorted(key, s) && Sorted(key, t) && |s| == |t| && forall k :: WithKey(key, s, k) == WithKey(key, t, k)
    ensures s == t
  {
    if s != [] {
      var n := |s| - 1;
      SameLast(key, s, t);
      forall k
        ensures WithKey(key, s[..n], k) == WithKey(key, t[..n], k)
      {
        assert WithKey(key, s, k) == WithKey(key, t, k);
        if key(s[n]) == k {
          assert WithKey(key, s[..n], k) == WithKey(key, s, k)[..|WithKey(key, s, k)| - 1];
          assert WithKey(key, t[..n], k) == WithKey(key, t, k)[..|WithKey(key, t, k)| - 1];
        }
      }
      StableOrderIsUnique(key, s[..n], t[..n]);
      assert s == s[..n] + [s[n]] && t == t[..n] + [t[n]];
    }
  }

  lemma {:induction false} HasKey<T>(key: T -> Key, s: seq<T>, k: Key) returns (i: nat)
    requires WithKey(key, s, k) != []
    ensures i < |s| && key(s[i]) == k
  {
    if key(s[|s| - 1]) == k {
      i := |s| - 1;
    } else {
      i := HasKey(key, s[..|s| - 1], k);
    }
  }

  lemma LastWithKey<T>(key: T -> Key, s: seq<T>)
    requires s != []
    ensures var x := s[|s| - 1]; var w := WithKey(key, s, key(x)); w != [] && w[|w| - 1] == x
  {
  }

  lemma {:induction false} LastIsGreatest<T>(key: T -> Key, t: seq<T>, k: Key)
    requires Sorted(key, t) && t != [] && WithKey(key, t, k) != []
    ensures !Less(key(t[|t| - 1]), k)
  {
    var i := HasKey(key, t, k);
    if i < |t| - 1 {
      assert !Less(key(t[|t| - 1]), key(t[i]));
    }
  }

  lemma {:induction false} SameLast<T>(key: T -> Key, s: seq<T>, t: seq<T>)
    requires Sorted(key, s) && Sorted(key, t) && |s| == |t| > 0 && forall k :: WithKey(key, s, k) == WithKey(key, t, k)
    ensures s[|s| - 1] == t[|t| - 1]
  {
    hide WithKey, Sorted;
    var a, b := key(s[|s| - 1]), key(t[|t| - 1]);
    LastWithKey(key, s);
    LastWithKey(key, t);
    assert WithKey(key, s, a) == WithKey(key, t, a) && WithKey(key, s, b) == WithKey(key, t, b);
    LastIsGreatest(key, t, a);
    LastIsGreatest(key, s, b);
    assert a == b;
  }

  ghost predicate Earlier<T>(s: seq<T>, x: T, y: T) {
    exists i, j :: 0 <= i < j < |s| && s[i] == x && s[j] == y
  }

  lemma EarlierStays<T>(s: seq<T>, z: T, x: T, y: T)
    requires Earlier(s, x, y)
    ensures Earlier(s + [z], x, y)
  {
    var i, j :| 0 <= i < j < |s| && s[i] == x && s[j] == y;
    var longer := s + [z];
    assert longer[i] == x && longer[j] == y;
  }

  lemma EarlierThanNew<T>(s: seq<T>, z: T, x: T)
    requires x in s
    ensures Earlier(s + [z], x, z)
  {
    var i :| 0 <= i < |s| && s[i] == x;
    var longer := s + [z];
    assert longer[i] == x && longer[|s|] == z;
  }

  /** In the sorted list a smaller key, or else the earlier place in the list that was sorted, comes first. */
  ghost predicate InStableOrder<T>(key: T -> Key, s: seq<T>, r: seq<T>) {
    forall i, j | 0 <= i < j < |r| :: Less(key(r[i]), key(r[j])) || (key(r[i]) == key(r[j]) && Earlier(s, r[i], r[j]))
  }

  lemma {:induction false} InsertKeepsStableOrder<T>(key: T -> Key, s: seq<T>, r: seq<T>, x: T)
    requires Sorted(key, r) && InStableOrder(key, s, r) && forall y | y in r :: y in s
    ensures InStableOrder(key, s + [x], Insert(key, r, x))
  {
    hide Earlier, Place, Less;
    var k := Place(key, r, x);
    var q := Insert(key, r, x);
    InsertIsAtPlace(key, r, x);
    forall i, j | 0 <= i < j < |q|
      ensures Less(key(q[i]), key(q[j])) || (key(q[i]) == key(q[j]) && Earlier(s + [x], q[i], q[j]))
    {
      if j == k {
        assert q[i] == r[i] && r[i] in r;
        EarlierThanNew(s, x, r[i]);
        NotGreaterThan(key, r, x, i);
      } else if i != k {
        var a, b := if i < k then i else i - 1, if j < k then j else j - 1;
        assert q[i] == r[a] && q[j] == r[b];
        if Earlier(s, r[a], r[b]) { EarlierStays(s, x, r[a], r[b]); }
      }
    }
  }

  lemma {:induction false} NotGreaterThan<T>(key: T -> Key, r: seq<T>, x: T, i: nat)
    requires Sorted(key, r) && i < Place(key, r, x)
    ensures Less(key(r[i]), key(x)) || key(r[i]) == key(x)
  {
  }

  lemma {:induction false} SortKeepsStableOrder<T>(key: T -> Key, s: seq<T>)
    ensures InStableOrder(key, s, Sort(key, s))
  {
    hide InStableOrder, Sorted, Insert;
    if s == [] {
      NothingInOrder(key, s);
    } else {
      var n := |s| - 1;
      SortKeepsStableOrder(key, s[..n]);
      SortIsSorted(key, s[..n]);
      SortKeepsElements(key, s[..n]);
      InsertKeepsStableOrder(key, s[..n], Sort(key, s[..n]), s[n]);
      assert s == s[..n] + [s[n]];
    }
  }

  lemma NothingInOrder<T>(key: T -> Key, s: seq<T>)
    ensures InStableOrder(key, s, [])
  {
  }

  lemma {:induction false} SortKeepsElements<T>(key: T -> Key, s: seq<T>)
    ensures |Sort(key, s)| == |s| && (forall y | y in Sort(key, s) :: y in s) && forall y | y in s :: y in Sort(key, s)
  {
    SortIsPermutation(key, s);
    forall y | y in Sort(key, s)
      ensures y in s
    {
      assert y in multiset(Sort(key, s));
    }
    forall y | y in s
      ensures y in Sort(key, s)
    {
      assert y in multiset(s);
    }
  }
}
