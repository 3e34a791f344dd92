/** Ordering entries by date: `Array.prototype.sort` with the date
    comparator, which is stable, so entries of one date keep their order. */
module Sorting {
  import opened DateOrder

  /** An entry of the result list: a date and its points. */
  datatype Entry<P> = Entry(date: string, points: seq<P>)

  // ---------------------------------------------------------------------------
  // Order by date

  /** Non-decreasing by date string. */
  predicate SortedByDate<P>(s: seq<Entry<P>>) {
    forall k | 0 < k < |s| :: NotBelow(s[k].date, s[k - 1].date)
  }

  /** The entries of one date, in their order. */
  function WithDate<P>(s: seq<Entry<P>>, d: string): (r: seq<Entry<P>>)
    ensures |r| <= |s|
    ensures forall e | e in r :: e in s && e.date == d
  {
    if s == [] then [] else (if s[0].date == d then [s[0]] else []) + WithDate(s[1..], d)
  }

  /** Same entries with each date in the same order: a stable reordering. */
  ghost predicate SameByDate<P>(s: seq<Entry<P>>, t: seq<Entry<P>>) {
    forall d :: WithDate(s, d) == WithDate(t, d)
  }

  lemma {:induction false} WithDateAppend<P>(s: seq<Entry<P>>, t: seq<Entry<P>>, d: string)
    ensures WithDate(s + t, d) == WithDate(s, d) + WithDate(t, d)
    decreases |s|
  {
    if s == [] {
      assert s + t == t;
    } else {
      assert (s + t)[1..] == s[1..] + t;
      WithDateAppend(s[1..], t, d);
    }
  }

  /** Replacing a middle part by one with the same entries of date `d` keeps
      the entries of date `d`. */
  lemma ReplaceMiddle<P>(s: seq<Entry<P>>, t: seq<Entry<P>>, pre: seq<Entry<P>>,
                         m1: seq<Entry<P>>, m2: seq<Entry<P>>, post: seq<Entry<P>>, d: string)
    requires s == pre + (m1 + post) && t == pre + (m2 + post)
    requires WithDate(m1, d) == WithDate(m2, d)
    ensures WithDate(s, d) == WithDate(t, d)
  {
    WithDateAppend(pre, m1 + post, d);
    WithDateAppend(pre, m2 + post, d);
    WithDateAppend(m1, post, d);
    WithDateAppend(m2, post, d);
  }

  /** Two entries of different dates, in either order, give the same entries of each date. */
  lemma PairByDate<P>(x: Entry<P>, y: Entry<P>, d: string)
    requires x.date != y.date
    ensures WithDate([x, y], d) == WithDate([y, x], d)
  {
    assert [x, y][1..] == [y];
    assert [y, x][1..] == [x];
  }

  /** Swapping two neighbours of different dates is a stable reordering. */
  lemma SwapByDate<P>(s: seq<Entry<P>>, j: nat)
    requires 0 < j < |s| && s[j - 1].date != s[j].date
    ensures SameByDate(s[j - 1 := s[j]][j := s[j - 1]], s)
  {
    var t := s[j - 1 := s[j]][j := s[j - 1]];
    var pre, post := s[..j - 1], s[j + 1..];
    assert s == pre + ([s[j - 1], s[j]] + post);
    assert t == pre + ([s[j], s[j - 1]] + post);
    forall d
      ensures WithDate(t, d) == WithDate(s, d)
    {
      PairByDate(s[j - 1], s[j], d);
      ReplaceMiddle(t, s, pre, [s[j], s[j - 1]], [s[j - 1], s[j]], post, d);
    }
  }

  /** The first `i` entries are in order. */
  predicate SortedPrefix<P>(s: seq<Entry<P>>, i: nat)
    requires i <= |s|
  {
    forall k | 0 < k < i :: NotBelow(s[k].date, s[k - 1].date)
  }

  /** While the entry at `j` moves down: the first `i + 1` entries are in order
      except between `j - 1` and `j`, and the neighbours of `j` are in order
      with each other. */
  predicate Inserting<P>(s: seq<Entry<P>>, i: nat, j: nat)
    requires j <= i < |s|
  {
    (forall k | 0 < k <= i && k != j :: NotBelow(s[k].date, s[k - 1].date))
    && (0 < j < i ==> NotBelow(s[j + 1].date, s[j - 1].date))
  }

  function Swap<P>(s: seq<Entry<P>>, j: nat): (t: seq<Entry<P>>)
    requires 0 < j < |s|
    ensures |t| == |s| && multiset(t) == multiset(s)
  {
    s[j - 1 := s[j]][j := s[j - 1]]
  }

  /** One swap of the inner loop keeps its invariant, one position lower. */
  lemma InsertStep<P>(s: seq<Entry<P>>, i: nat, j: nat)
    requires 0 < j <= i < |s| && Inserting(s, i, j) && Below(s[j].date, s[j - 1].date)
    ensures Inserting(Swap(s, j), i, j - 1)
    ensures SameByDate(Swap(s, j), s)
  {
    BelowAsymmetric(s[j].date, s[j - 1].date);
    BelowIrreflexive(s[j].date);
    SwapByDate(s, j);
  }

  /** `entries.sort(comparator)` on the array: insertion by swapping
      neighbours, which never moves an entry past one of the same date. */
  method SortByDateInPlace<P>(a: array<Entry<P>>)
    modifies a
    ensures SortedByDate(a[..])
    ensures SameByDate(a[..], old(a[..]))
    ensures multiset(a[..]) == multiset(old(a[..]))
  {
    var i := 0;
    while i < a.Length
      invariant 0 <= i <= a.Length
      invariant SortedPrefix(a[..], i)
      invariant SameByDate(a[..], old(a[..]))
      invariant multiset(a[..]) == multiset(old(a[..]))
    {
      var j := i;
      while j > 0 && Below(a[j].date, a[j - 1].date)
        invariant 0 <= j <= i
        invariant Inserting(a[..], i, j)
        invariant SameByDate(a[..], old(a[..]))
        invariant multiset(a[..]) == multiset(old(a[..]))
      {
        ghost var before := a[..];
        InsertStep(before, i, j);
        a[j - 1], a[j] := a[j], a[j - 1];
        assert a[..] == Swap(before, j);
        j := j - 1;
      }
      i := i + 1;
    }
  }

  // ---------------------------------------------------------------------------
  // The stable sort as a function

  /** Places `x` before the first entry whose date is not below its own. */
  function Insert<P>(x: Entry<P>, s: seq<Entry<P>>): (r: seq<Entry<P>>)
    ensures |r| == |s| + 1
    ensures multiset(r) == multiset(s) + multiset{x}
  {
    if s == [] || NotBelow(s[0].date, x.date) then [x] + s
    else
      var rest := Insert(x, s[1..]);
      assert s == [s[0]] + s[1..];
      [s[0]] + rest
  }

  /** Stable sort by date: each entry inserted into the sorted rest. */
  function SortByDate<P>(s: seq<Entry<P>>): (r: seq<Entry<P>>)
    ensures |r| == |s| && multiset(r) == multiset(s)
  {
    if s == [] then []
    else
      var rest := SortByDate(s[1..]);
      assert s == [s[0]] + s[1..];
      Insert(s[0], rest)
  }

  lemma {:induction false} InsertSorted<P>(x: Entry<P>, s: seq<Entry<P>>)
    requires SortedByDate(s)
    ensures SortedByDate(Insert(x, s))
    decreases |s|
  {
    if s != [] && !NotBelow(s[0].date, x.date) {
      InsertSorted(x, s[1..]);
      var r := Insert(x, s);
      var rest := Insert(x, s[1..]);
      assert r == [s[0]] + rest;
      // rest starts with x or with s[1], neither below s[0]
      if |s| > 1 && !NotBelow(s[1].date, x.date) {
        assert rest[0] == s[1];
      } else {
        assert rest[0] == x;
        Trichotomy(s[0].date, x.date);
      }
    }
  }

  /** Passing an entry of another date over the entries of date `d` of `rest`. */
  lemma PassOver<P>(y: Entry<P>, rest: seq<Entry<P>>, x: Entry<P>, tail: seq<Entry<P>>, d: string)
    requires y.date != x.date
    requires WithDate(rest, d) == (if x.date == d then [x] else []) + tail
    ensures WithDate([y] + rest, d) == (if x.date == d then [x] else []) + ((if y.date == d then [y] else []) + tail)
  {
    WithDateHead([y] + rest, d);
    assert ([y] + rest)[1..] == rest;
    if x.date == d {
      assert WithDate([y] + rest, d) == WithDate(rest, d);
      assert [] + tail == tail;
    } else {
      assert WithDate(rest, d) == tail;
    }
  }

  lemma {:induction false} InsertByDate<P>(x: Entry<P>, s: seq<Entry<P>>, d: string)
    ensures WithDate(Insert(x, s), d) == (if x.date == d then [x] else []) + WithDate(s, d)
    decreases |s|
  {
    if s != [] && !NotBelow(s[0].date, x.date) {
      InsertByDate(x, s[1..], d);
      assert Insert(x, s) == [s[0]] + Insert(x, s[1..]);
      BelowIrreflexive(x.date);
      PassOver(s[0], Insert(x, s[1..]), x, WithDate(s[1..], d), d);
      WithDateHead(s, d);
    } else {
      WithDateHead([x] + s, d);
      assert ([x] + s)[1..] == s;
    }
  }

  lemma {:induction false} SortByDateCorrect<P>(s: seq<Entry<P>>)
    ensures SortedByDate(SortByDate(s))
    ensures SameByDate(SortByDate(s), s)
    decreases |s|
  {
    if s != [] {
      SortByDateCorrect(s[1..]);
      InsertSorted(s[0], SortByDate(s[1..]));
      forall d
        ensures WithDate(SortByDate(s), d) == WithDate(s, d)
      {
        InsertByDate(s[0], SortByDate(s[1..]), d);
      }
    }
  }

  /** In a sorted sequence no entry is below the first. */
  lemma {:induction false} SortedFirstIsLeast<P>(s: seq<Entry<P>>, k: nat)
    requires SortedByDate(s) && k < |s|
    ensures NotBelow(s[k].date, s[0].date)
    decreases k
  {
    if k == 0 {
      BelowIrreflexive(s[0].date);
    } else {
      SortedFirstIsLeast(s, k - 1);
      NotBelowTransitive(s[k].date, s[k - 1].date, s[0].date);
    }
  }

  lemma WithDateHead<P>(s: seq<Entry<P>>, d: string)
    requires s != []
    ensures WithDate(s, d) == (if s[0].date == d then [s[0]] else []) + WithDate(s[1..], d)
  {
  }

  /** A member of the sequence shows up in the entries of its date. */
  lemma {:induction false} WithDateHas<P>(s: seq<Entry<P>>, k: nat)
    requires k < |s|
    ensures s[k] in WithDate(s, s[k].date)
    decreases k
  {
    if k > 0 {
      WithDateHas(s[1..], k - 1);
    }
  }

  /** The first entries of two sorted stable reorderings of each other agree. */
  lemma SortedSameHead<P>(s: seq<Entry<P>>, t: seq<Entry<P>>)
    requires SortedByDate(s) && SortedByDate(t) && SameByDate(s, t) && s != []
    ensures t != [] && s[0] == t[0]
  {
    var d := s[0].date;
    assert WithDate(s, d)[0] == s[0];
    assert WithDate(t, d) == WithDate(s, d);
    if t == [] {
      assert false;
    }
    var e := t[0].date;
    if e != d {
      WithDateHas(s, 0);
      WithDateHas(t, 0);
      assert t[0] in WithDate(s, e);
      var k :| 0 <= k < |s| && s[k] == t[0];
      SortedFirstIsLeast(s, k);
      assert s[0] in WithDate(t, d);
      var l :| 0 <= l < |t| && t[l] == s[0];
      SortedFirstIsLeast(t, l);
      Trichotomy(d, e);
      assert false;
    }
    assert WithDate(t, d)[0] == t[0];
  }

  /** Being sorted and a stable reordering of a given sequence determines the
      result: every stable sort by date gives the same sequence. */
  lemma {:induction false} SortedStableUnique<P>(s: seq<Entry<P>>, t: seq<Entry<P>>)
    requires SortedByDate(s) && SortedByDate(t) && SameByDate(s, t)
    ensures s == t
    decreases |s|
  {
    if s == [] {
      if t != [] {
        SortedSameHead(t, s);
      }
    } else {
      SortedSameHead(s, t);
      forall d
        ensures WithDate(s[1..], d) == WithDate(t[1..], d)
      {
        WithDateHead(s, d);
        WithDateHead(t, d);
        var h := if s[0].date == d then [s[0]] else [];
        assert WithDate(s, d) == WithDate(t, d);
        assert (h + WithDate(s[1..], d))[|h|..] == WithDate(s[1..], d);
        assert (h + WithDate(t[1..], d))[|h|..] == WithDate(t[1..], d);
      }
      SortedStableUnique(s[1..], t[1..]);
      assert s == [s[0]] + s[1..] && t == [t[0]] + t[1..];
    }
  }

}
