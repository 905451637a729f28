/** The LINQ operators the services apply to their tables: Where, OrderBy /
    OrderByDescending (a stable sort on an integer key), Count, Skip and Take. */
module Query {
  import opened Common

  // ---------------------------------------------------------------------------
  // Where
  // ---------------------------------------------------------------------------

  /** s.Where(p): the elements of s satisfying p, in their order in s. */
  function Filter<T>(p: T -> bool, s: seq<T>): (r: seq<T>)
    ensures |r| <= |s|
    ensures forall k :: 0 <= k < |r| ==> p(r[k])
  {
    if s == [] then []
    else
      var init := Filter(p, s[..|s| - 1]);
      if p(s[|s| - 1]) then init + [s[|s| - 1]] else init
  }

  /** Appending one element extends the filtered sequence by that element
      exactly when it satisfies the predicate. */
  lemma FilterSnoc<T>(p: T -> bool, s: seq<T>, x: T)
    ensures Filter(p, s + [x]) == if p(x) then Filter(p, s) + [x] else Filter(p, s)
  {
    assert (s + [x])[..|s|] == s;
  }

  /** An element survives Where exactly when it is in s and satisfies p. */
  lemma {:induction false} FilterMembers<T>(p: T -> bool, s: seq<T>, x: T)
    ensures x in Filter(p, s) <==> x in s && p(x)
  {
    if s != [] {
      var init := s[..|s| - 1];
      assert s == init + [s[|s| - 1]];
      FilterMembers(p, init, x);
    }
  }

  /** Where distributes over concatenation, so it keeps the relative order. */
  lemma {:induction false} FilterAppend<T>(p: T -> bool, s: seq<T>, t: seq<T>)
    ensures Filter(p, s + t) == Filter(p, s) + Filter(p, t)
    decreases |t|
  {
    if t != [] {
      var t' := t[..|t| - 1];
      var x := t[|t| - 1];
      assert t == t' + [x];
      assert s + t == (s + t') + [x];
      FilterSnoc(p, s + t', x);
      FilterSnoc(p, t', x);
      FilterAppend(p, s, t');
    } else {
      assert s + t == s;
    }
  }

  /** s.Count(p) */
  function Count<T>(p: T -> bool, s: seq<T>): nat
  {
    |Filter(p, s)|
  }

  /** Adding one row raises the count of rows satisfying p by one when the row
      satisfies p, and leaves it otherwise. */
  lemma CountSnoc<T>(p: T -> bool, s: seq<T>, x: T)
    ensures Count(p, s + [x]) == Count(p, s) + (if p(x) then 1 else 0)
  {
    FilterSnoc(p, s, x);
  }

  /** Removing the row at index i lowers the count by one when that row
      satisfies p, and leaves it otherwise. */
  lemma CountRemove<T>(p: T -> bool, s: seq<T>, i: nat)
    requires i < |s|
    ensures Count(p, s[..i] + s[i + 1..]) + (if p(s[i]) then 1 else 0) == Count(p, s)
  {
    SplitAt(s, i);
    FilterAppend(p, s[..i] + [s[i]], s[i + 1..]);
    FilterAppend(p, s[..i], s[i + 1..]);
    FilterSnoc(p, s[..i], s[i]);
  }

  /** Count is zero exactly when no element satisfies p. */
  lemma CountZero<T>(p: T -> bool, s: seq<T>)
    ensures Count(p, s) == 0 <==> forall k :: 0 <= k < |s| ==> !p(s[k])
  {
    if Count(p, s) == 0 {
      forall k | 0 <= k < |s| ensures !p(s[k]) {
        FilterMembers(p, s, s[k]);
      }
    } else {
      var x := Filter(p, s)[0];
      FilterMembers(p, s, x);
      var k :| 0 <= k < |s| && s[k] == x;
      assert p(s[k]);
    }
  }

  /** The index of s.FirstOrDefault(p), or None when no element satisfies p. */
  function FirstWhere<T>(p: T -> bool, s: seq<T>): (r: Option<nat>)
    ensures r.None? <==> forall k :: 0 <= k < |s| ==> !p(s[k])
    ensures r.Some? ==> r.value < |s| && p(s[r.value]) && forall k :: 0 <= k < r.value ==> !p(s[k])
  {
    if s == [] then None
    else if p(s[0]) then Some(0)
    else
      var rest := FirstWhere(p, s[1..]);
      assert forall k :: 1 <= k < |s| ==> s[k] == s[1..][k - 1];
      if rest.None? then None else Some(rest.value + 1)
  }

  /** s with the row at index i removed (DbSet.Remove of that row). */
  function RemoveAt<T>(s: seq<T>, i: nat): (r: seq<T>)
    requires i < |s|
    ensures |r| == |s| - 1
    ensures multiset(r) + multiset{s[i]} == multiset(s)
    ensures forall k :: 0 <= k < |r| ==> r[k] == if k < i then s[k] else s[k + 1]
  {
    assert s == s[..i] + [s[i]] + s[i + 1..];
    s[..i] + s[i + 1..]
  }

  lemma SplitAt<T>(s: seq<T>, i: nat)
    requires i < |s|
    ensures s == (s[..i] + [s[i]]) + s[i + 1..]
  {
  }

  /** Where over a sequence, seen around its element at index i. */
  lemma FilterAround<T>(p: T -> bool, s: seq<T>, i: nat)
    requires i < |s|
    ensures Filter(p, s) == Filter(p, s[..i]) + (if p(s[i]) then [s[i]] else []) + Filter(p, s[i + 1..])
  {
    var pre, x, post := s[..i], s[i], s[i + 1..];
    SplitAt(s, i);
    FilterAppend(p, pre + [x], post);
    FilterSnoc(p, pre, x);
    if !p(x) {
      assert Filter(p, pre) + [] == Filter(p, pre);
    }
  }

  lemma RemoveAtSplit<T>(s: seq<T>, i: nat)
    requires i < |s|
    ensures RemoveAt(s, i) == s[..i] + s[i + 1..]
  {
  }

  /** Removing a row that fails p leaves Where(p) unchanged. */
  lemma FilterRemoveAt<T>(p: T -> bool, s: seq<T>, i: nat)
    requires i < |s| && !p(s[i])
    ensures Filter(p, RemoveAt(s, i)) == Filter(p, s)
  {
    RemoveAtSplit(s, i);
    FilterAround(p, s, i);
    FilterAppend(p, s[..i], s[i + 1..]);
  }

  /** Removing a row lowers Count(p) by one when the row satisfies p. */
  lemma CountRemoveAt<T>(p: T -> bool, s: seq<T>, i: nat)
    requires i < |s|
    ensures Count(p, RemoveAt(s, i)) + (if p(s[i]) then 1 else 0) == Count(p, s)
  {
    RemoveAtSplit(s, i);
    CountRemove(p, s, i);
  }

  /** When exactly one row satisfies p, Where(p) is that row alone. */
  lemma {:induction false} SingleMatch<T>(p: T -> bool, s: seq<T>, i: nat)
    requires i < |s| && p(s[i])
    requires forall k :: 0 <= k < |s| && k != i ==> !p(s[k])
    ensures Filter(p, s) == [s[i]]
  {
    var init := s[..|s| - 1];
    if i == |s| - 1 {
      CountZero(p, init);
    } else {
      SingleMatch(p, init, i);
    }
  }

  /** Where keeps a table free of duplicate rows. */
  lemma {:induction false} FilterKeepsDistinct<T>(p: T -> bool, s: seq<T>)
    requires forall i, j :: 0 <= i < j < |s| ==> s[i] != s[j]
    ensures forall i, j :: 0 <= i < j < |Filter(p, s)| ==> Filter(p, s)[i] != Filter(p, s)[j]
  {
    if s != [] {
      var init := s[..|s| - 1];
      var last := s[|s| - 1];
      FilterKeepsDistinct(p, init);
      var f := Filter(p, init);
      forall k | 0 <= k < |f| ensures f[k] != last {
        FilterMembers(p, init, f[k]);
      }
    }
  }

  // ---------------------------------------------------------------------------
  // Select
  // ---------------------------------------------------------------------------

  /** s.Select(f) */
  function MapSeq<T, U>(f: T -> U, s: seq<T>): (r: seq<U>)
    ensures |r| == |s|
    ensures forall k :: 0 <= k < |s| ==> r[k] == f(s[k])
  {
    if s == [] then [] else MapSeq(f, s[..|s| - 1]) + [f(s[|s| - 1])]
  }

  // ---------------------------------------------------------------------------
  // OrderBy: a stable insertion sort, ascending in an integer key. Descending
  // orders use the negated key. Elements with equal keys keep their order.
  // ---------------------------------------------------------------------------

  predicate SortedBy<T>(s: seq<T>, key: T -> int)
  {
    forall i, j :: 0 <= i < j < |s| ==> key(s[i]) <= key(s[j])
  }

  /** Places x before the first element whose key is not smaller. */
  function Insert<T>(x: T, s: seq<T>, key: T -> int): seq<T>
  {
    if s == [] || key(x) <= key(s[0]) then [x] + s
    else [s[0]] + Insert(x, s[1..], key)
  }

  function SortBy<T>(s: seq<T>, key: T -> int): seq<T>
  {
    if s == [] then [] else Insert(s[0], SortBy(s[1..], key), key)
  }

  lemma {:induction false} InsertPermutes<T>(x: T, s: seq<T>, key: T -> int)
    ensures multiset(Insert(x, s, key)) == multiset(s) + multiset{x}
  {
    if s != [] && key(x) > key(s[0]) {
      InsertPermutes(x, s[1..], key);
      assert s == [s[0]] + s[1..];
    }
  }

  lemma {:induction false} InsertSorted<T>(x: T, s: seq<T>, key: T -> int)
    requires SortedBy(s, key)
    ensures SortedBy(Insert(x, s, key), key)
  {
    if s != [] && key(x) > key(s[0]) {
      InsertSorted(x, s[1..], key);
      InsertPermutes(x, s[1..], key);
      var r := Insert(x, s[1..], key);
      forall k | 0 <= k < |r| ensures key(s[0]) <= key(r[k]) {
        assert r[k] in multiset(r);
        assert r[k] in multiset(s[1..]) + multiset{x};
        if r[k] != x {
          assert r[k] in s[1..];
        }
      }
    }
  }

  /** OrderBy returns a permutation of its input, sorted by the key. */
  lemma {:induction false} SortBySortedPermutation<T>(s: seq<T>, key: T -> int)
    ensures SortedBy(SortBy(s, key), key)
    ensures multiset(SortBy(s, key)) == multiset(s)
    ensures |SortBy(s, key)| == |s|
  {
    if s != [] {
      SortBySortedPermutation(s[1..], key);
      InsertSorted(s[0], SortBy(s[1..], key), key);
      InsertPermutes(s[0], SortBy(s[1..], key), key);
      assert s == [s[0]] + s[1..];
    }
  }

  /** s.Where(p).OrderBy(key): exactly the elements satisfying p, each as often
      as in s, sorted by the key. */
  lemma OrderedWhere<T>(p: T -> bool, s: seq<T>, key: T -> int)
    ensures SortedBy(SortBy(Filter(p, s), key), key)
    ensures multiset(SortBy(Filter(p, s), key)) == multiset(Filter(p, s))
    ensures |SortBy(Filter(p, s), key)| == Count(p, s)
    ensures forall x :: x in SortBy(Filter(p, s), key) <==> x in s && p(x)
  {
    var f := Filter(p, s);
    SortBySortedPermutation(f, key);
    forall x ensures x in SortBy(f, key) <==> x in s && p(x) {
      FilterMembers(p, s, x);
      assert x in SortBy(f, key) <==> x in multiset(f);
    }
  }

  /** No two elements share an identity. */
  predicate DistinctBy<T>(s: seq<T>, id: T -> int)
  {
    forall i, j :: 0 <= i < j < |s| ==> id(s[i]) != id(s[j])
  }

  lemma {:induction false} FilterDistinctBy<T>(p: T -> bool, s: seq<T>, id: T -> int)
    requires DistinctBy(s, id)
    ensures DistinctBy(Filter(p, s), id)
  {
    if s != [] {
      var init := s[..|s| - 1];
      var last := s[|s| - 1];
      FilterDistinctBy(p, init, id);
      var f := Filter(p, init);
      forall k | 0 <= k < |f| ensures id(f[k]) != id(last) {
        FilterMembers(p, init, f[k]);
      }
    }
  }

  lemma {:induction false} InsertDistinctBy<T>(x: T, s: seq<T>, key: T -> int, id: T -> int)
    requires DistinctBy(s, id)
    requires forall k :: 0 <= k < |s| ==> id(s[k]) != id(x)
    ensures DistinctBy(Insert(x, s, key), id)
  {
    if s != [] && key(x) > key(s[0]) {
      InsertDistinctBy(x, s[1..], key, id);
      InsertPermutes(x, s[1..], key);
      var r := Insert(x, s[1..], key);
      forall k | 0 <= k < |r| ensures id(r[k]) != id(s[0]) {
        assert r[k] in multiset(s[1..]) + multiset{x};
      }
    }
  }

  /** OrderBy keeps identities distinct. */
  lemma {:induction false} SortByDistinctBy<T>(s: seq<T>, key: T -> int, id: T -> int)
    requires DistinctBy(s, id)
    ensures DistinctBy(SortBy(s, key), id)
  {
    if s != [] {
      SortByDistinctBy(s[1..], key, id);
      SortBySortedPermutation(s[1..], key);
      var r := SortBy(s[1..], key);
      forall k | 0 <= k < |r| ensures id(r[k]) != id(s[0]) {
        assert r[k] in multiset(s[1..]);
      }
      InsertDistinctBy(s[0], r, key, id);
    }
  }

  // ---------------------------------------------------------------------------
  // Skip and Take (a negative count skips or takes nothing, as in LINQ)
  // ---------------------------------------------------------------------------

  function Skip<T>(s: seq<T>, n: int): seq<T>
  {
    if n <= 0 then s else if n >= |s| then [] else s[n..]
  }

  function Take<T>(s: seq<T>, n: int): seq<T>
  {
    if n <= 0 then [] else if n >= |s| then s else s[..n]
  }

  /** s.Skip(skip).Take(take) */
  function Window<T>(s: seq<T>, skip: int, take: int): (r: seq<T>)
    ensures |r| <= |s|
    ensures take >= 0 ==> |r| <= take
    ensures take < 0 ==> r == []
  {
    Take(Skip(s, skip), take)
  }

  /** The window is the slice of s starting at the skip count. */
  lemma WindowAt<T>(s: seq<T>, skip: int, take: int, i: nat)
    requires skip >= 0
    requires i < |Window(s, skip, take)|
    ensures skip + i < |s| && i < take
    ensures Window(s, skip, take)[i] == s[skip + i]
  {
  }

  /** A window of a sorted sequence is sorted. */
  lemma WindowSorted<T>(s: seq<T>, skip: int, take: int, key: T -> int)
    requires SortedBy(s, key)
    ensures SortedBy(Window(s, skip, take), key)
  {
    var base := if skip <= 0 then 0 else skip;
    var w := Window(s, skip, take);
    assert Window(s, base, take) == w;
    forall i, j | 0 <= i < j < |w| ensures key(w[i]) <= key(w[j]) {
      WindowAt(s, base, take, i);
      WindowAt(s, base, take, j);
    }
  }

  /** Every element of the window is an element of s. */
  lemma WindowMembers<T>(s: seq<T>, skip: int, take: int, x: T)
    requires x in Window(s, skip, take)
    ensures x in s
  {
    var i :| 0 <= i < |Window(s, skip, take)| && Window(s, skip, take)[i] == x;
    if skip > 0 {
      WindowAt(s, skip, take, i);
    }
  }

  /** Two adjacent windows of a sequence with distinct identities share no
      identity. */
  lemma AdjacentWindowsDisjoint<T>(s: seq<T>, skip: int, take: int, id: T -> int, x: T, y: T)
    requires skip >= 0 && take >= 0
    requires DistinctBy(s, id)
    requires x in Window(s, skip, take) && y in Window(s, skip + take, take)
    ensures id(x) != id(y)
  {
    var w1 := Window(s, skip, take);
    var w2 := Window(s, skip + take, take);
    var i :| 0 <= i < |w1| && w1[i] == x;
    var j :| 0 <= j < |w2| && w2[j] == y;
    WindowAt(s, skip, take, i);
    WindowAt(s, skip + take, take, j);
  }
}
