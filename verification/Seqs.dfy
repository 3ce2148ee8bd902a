/**
 Sequence operations shared by the service models: list comprehension filters,
 Python's stable `sorted`, and the "keep the last n" cut of bounded histories.
 */
module Seqs {

  datatype Option<+T> = None | Some(value: T)

  /** A returned value, or the exception that was raised instead. */
  datatype Result<+T> = Ok(value: T) | Raised(error: string)

  /** `[x for x in s if p(x)]`. */
  function Filter<T(!new)>(p: T -> bool, s: seq<T>): (r: seq<T>)
    ensures |r| <= |s|
    ensures forall x :: x in r <==> x in s && p(x)
  {
    if s == [] then []
    else
      var last := s[|s| - 1];
      var front := Filter(p, s[..|s| - 1]);
      assert s == s[..|s| - 1] + [last];
      if p(last) then front + [last] else front
  }

  lemma TakeSnoc<T>(s: seq<T>, i: nat)
    requires i < |s|
    ensures s[..i + 1] == s[..i] + [s[i]]
  {
  }

  lemma TakeEnds<T>(s: seq<T>)
    ensures s[..0] == [] && s[..|s|] == s
  {
  }

  lemma {:induction false} FilterSnoc<T(!new)>(p: T -> bool, s: seq<T>, x: T)
    ensures Filter(p, s + [x]) == Filter(p, s) + (if p(x) then [x] else [])
  {
  }

  lemma {:induction false} FilterConcat<T(!new)>(p: T -> bool, s: seq<T>, t: seq<T>)
    ensures Filter(p, s + t) == Filter(p, s) + Filter(p, t)
  {
    if t == [] {
      assert s + t == s;
    } else {
      var front, last := t[..|t| - 1], t[|t| - 1];
      assert t == front + [last] && s + t == (s + front) + [last];
      FilterConcat(p, s, front);
      FilterSnoc(p, s + front, last);
    }
  }

  /** Only the values of the predicate on the elements matter. */
  lemma {:induction false} FilterAgree<T(!new)>(p: T -> bool, q: T -> bool, s: seq<T>)
    requires forall x | x in s :: p(x) == q(x)
    ensures Filter(p, s) == Filter(q, s)
  {
    if s != [] {
      var front, last := s[..|s| - 1], s[|s| - 1];
      assert s == front + [last];
      FilterAgree(p, q, front);
    }
  }

  lemma {:induction false} FilterAll<T(!new)>(p: T -> bool, s: seq<T>)
    requires forall x | x in s :: p(x)
    ensures Filter(p, s) == s
  {
    if s != [] {
      var front, last := s[..|s| - 1], s[|s| - 1];
      assert s == front + [last];
      FilterAll(p, front);
    }
  }

  lemma {:induction false} FilterNone<T(!new)>(p: T -> bool, s: seq<T>)
    requires forall x | x in s :: !p(x)
    ensures Filter(p, s) == []
  {
    if s != [] {
      var front, last := s[..|s| - 1], s[|s| - 1];
      assert s == front + [last];
      FilterNone(p, front);
    }
  }

  /** Two filters in a row are one. */
  lemma {:induction false} FilterTwice<T(!new)>(p: T -> bool, q: T -> bool, both: T -> bool, s: seq<T>)
    requires forall x | x in s :: both(x) == (p(x) && q(x))
    ensures Filter(q, Filter(p, s)) == Filter(both, s)
  {
    if s != [] {
      var front, last := s[..|s| - 1], s[|s| - 1];
      assert s == front + [last];
      FilterTwice(p, q, both, front);
      FilterSnoc(q, Filter(p, front), last);
    }
  }

  /** A filter keeps or drops all copies of an element, whatever the order. */
  lemma {:induction false} FilterMultiset<T(!new)>(p: T -> bool, s: seq<T>, x: T)
    ensures multiset(Filter(p, s))[x] == if p(x) then multiset(s)[x] else 0
  {
    if s != [] {
      var front, last := s[..|s| - 1], s[|s| - 1];
      assert s == front + [last];
      FilterMultiset(p, front, x);
    }
  }

  lemma FilterCountPermuted<T(!new)>(p: T -> bool, s: seq<T>, t: seq<T>)
    requires multiset(s) == multiset(t)
    ensures |Filter(p, s)| == |Filter(p, t)|
  {
    forall x ensures multiset(Filter(p, s))[x] == multiset(Filter(p, t))[x] {
      FilterMultiset(p, s, x);
      FilterMultiset(p, t, x);
    }
    assert multiset(Filter(p, s)) == multiset(Filter(p, t));
    assert |multiset(Filter(p, s))| == |Filter(p, s)| && |multiset(Filter(p, t))| == |Filter(p, t)|;
  }

  /** Splitting a filter in two splits its count. */
  lemma {:induction false} FilterSplit<T(!new)>(p: T -> bool, q: T -> bool, r: T -> bool, s: seq<T>)
    requires forall x | x in s :: p(x) == (q(x) || r(x)) && !(q(x) && r(x))
    ensures |Filter(p, s)| == |Filter(q, s)| + |Filter(r, s)|
  {
    if s != [] {
      var front, last := s[..|s| - 1], s[|s| - 1];
      assert s == front + [last];
      FilterSplit(p, q, r, front);
    }
  }

  /** What stands before the only occurrence of an element is determined. */
  lemma SplitAtOnly<T(!new)>(x: T, before: seq<T>, after: seq<T>, before': seq<T>, after': seq<T>)
    requires before + [x] + after == before' + [x] + after'
    requires x !in before && x !in before'
    ensures before == before'
  {
    var s, t := before + [x] + after, before' + [x] + after';
    assert s[|before|] == x && t[|before'|] == x;
    assert before == s[..|before|] && before' == t[..|before'|];
  }

  ghost predicate Distinct<T(!new)>(s: seq<T>) {
    forall i, j | 0 <= i < j < |s| :: s[i] != s[j]
  }

  lemma {:induction false} FilterDistinct<T(!new)>(p: T -> bool, s: seq<T>)
    requires Distinct(s)
    ensures Distinct(Filter(p, s))
  {
    if s != [] {
      var front, last := s[..|s| - 1], s[|s| - 1];
      assert s == front + [last];
      assert last !in front;
      FilterDistinct(p, front);
    }
  }

  lemma {:induction false} DistinctCount<T(!new)>(s: seq<T>)
    requires Distinct(s)
    ensures |set x | x in s| == |s|
  {
    if s != [] {
      var front, last := s[..|s| - 1], s[|s| - 1];
      assert s == front + [last];
      DistinctCount(front);
      assert (set x | x in s) == (set x | x in front) + {last};
    }
  }

  /** The first occurrence of every element. */
  function Unique<T(==, !new)>(s: seq<T>): (r: seq<T>)
    ensures Distinct(r)
    ensures forall x :: x in r <==> x in s
  {
    if s == [] then []
    else
      assert s == s[..|s| - 1] + [s[|s| - 1]];
      var front := Unique(s[..|s| - 1]);
      if s[|s| - 1] in front then front else front + [s[|s| - 1]]
  }

  lemma {:induction false} UniqueSnoc<T(!new)>(s: seq<T>, x: T)
    ensures Unique(s + [x]) == if x in s then Unique(s) else Unique(s) + [x]
  {
    assert (s + [x])[..|s|] == s;
  }

  /** The last `n` elements, or all of them: `s[-n:]` for a positive `n`. */
  function Suffix<T(!new)>(s: seq<T>, n: nat): (r: seq<T>)
    ensures |r| == if |s| <= n then |s| else n
    ensures forall i | 0 <= i < |r| :: r[i] == s[|s| - |r| + i]
  {
    if |s| <= n then s else s[|s| - n..]
  }

  /** Dropping the overflow after each append loses nothing a shorter suffix needs. */
  lemma SuffixOfSuffix<T(!new)>(s: seq<T>, m: nat, n: nat)
    requires n <= m
    ensures Suffix(Suffix(s, m), n) == Suffix(s, n)
  {
  }

  lemma SuffixAppend<T(!new)>(s: seq<T>, x: T, n: nat)
    requires n > 0
    ensures Suffix(Suffix(s, n) + [x], n) == Suffix(s + [x], n)
  {
  }

  // ---------- sums and means of samples ----------

  function Total(values: seq<real>): real {
    if values == [] then 0.0 else Total(values[..|values| - 1]) + values[|values| - 1]
  }

  lemma {:induction false} TotalSnoc(values: seq<real>, x: real)
    ensures Total(values + [x]) == Total(values) + x
  {
  }

  /** The average, zero for no values. */
  function Mean(values: seq<real>): real {
    if values == [] then 0.0 else Total(values) / |values| as real
  }

  // ---------- Python's stable sort ----------

  ghost predicate TotalPreorder<T(!new)>(le: (T, T) -> bool) {
    && (forall x, y :: le(x, y) || le(y, x))
    && (forall x, y, z :: le(x, y) && le(y, z) ==> le(x, z))
  }

  ghost predicate SortedBy<T(!new)>(le: (T, T) -> bool, s: seq<T>) {
    forall i, j | 0 <= i < j < |s| :: le(s[i], s[j])
  }

  function Insert<T(!new)>(le: (T, T) -> bool, s: seq<T>, x: T): (r: seq<T>)
    ensures multiset(r) == multiset(s + [x])
    ensures |r| == |s| + 1
  {
    if s == [] || le(s[|s| - 1], x) then s + [x]
    else
      assert s == s[..|s| - 1] + [s[|s| - 1]];
      Insert(le, s[..|s| - 1], x) + [s[|s| - 1]]
  }

  /** `sorted(s)` under the order `le`: equal elements keep their order. */
  function Sort<T(!new)>(le: (T, T) -> bool, s: seq<T>): (r: seq<T>)
    ensures multiset(r) == multiset(s)
    ensures |r| == |s|
    ensures forall x :: x in r <==> x in s
  {
    if s == [] then []
    else
      assert s == s[..|s| - 1] + [s[|s| - 1]];
      var r := Insert(le, Sort(le, s[..|s| - 1]), s[|s| - 1]);
      assert forall x :: x in r <==> x in multiset(s);
      r
  }

  lemma {:induction false} InsertSorts<T(!new)>(le: (T, T) -> bool, s: seq<T>, x: T)
    requires TotalPreorder(le) && SortedBy(le, s)
    ensures SortedBy(le, Insert(le, s, x))
  {
    if s != [] && !le(s[|s| - 1], x) {
      var front, last := s[..|s| - 1], s[|s| - 1];
      InsertSorts(le, front, x);
      var r := Insert(le, front, x);
      forall i | 0 <= i < |r| ensures le(r[i], last) {
        assert r[i] in multiset(r);
        assert r[i] in front + [x];
      }
    }
  }

  lemma {:induction false} SortSorts<T(!new)>(le: (T, T) -> bool, s: seq<T>)
    requires TotalPreorder(le)
    ensures SortedBy(le, Sort(le, s))
  {
    if s != [] {
      SortSorts(le, s[..|s| - 1]);
      InsertSorts(le, Sort(le, s[..|s| - 1]), s[|s| - 1]);
    }
  }

  /** The elements of a class of ties leave an insertion in the order they came. */
  lemma {:induction false} InsertStable<T(!new)>(le: (T, T) -> bool, tied: T -> bool, s: seq<T>, x: T)
    requires forall a, b | tied(a) && tied(b) :: le(a, b)
    ensures Filter(tied, Insert(le, s, x)) == Filter(tied, s + [x])
  {
    FilterSnoc(tied, s, x);
    if s != [] && !le(s[|s| - 1], x) {
      var front, last := s[..|s| - 1], s[|s| - 1];
      InsertStable(le, tied, front, x);
      FilterSnoc(tied, front, x);
      FilterSnoc(tied, Insert(le, front, x), last);
    }
  }

  lemma {:induction false} SortStable<T(!new)>(le: (T, T) -> bool, tied: T -> bool, s: seq<T>)
    requires forall a, b | tied(a) && tied(b) :: le(a, b)
    ensures Filter(tied, Sort(le, s)) == Filter(tied, s)
  {
    if s != [] {
      var front, last := s[..|s| - 1], s[|s| - 1];
      assert s == front + [last];
      SortStable(le, tied, front);
      InsertStable(le, tied, Sort(le, front), last);
      FilterSnoc(tied, Sort(le, front), last);
      FilterSnoc(tied, front, last);
    }
  }

  /** Sorting a sorted sequence changes nothing. */
  lemma {:induction false} SortOfSorted<T(!new)>(le: (T, T) -> bool, s: seq<T>)
    requires SortedBy(le, s)
    ensures Sort(le, s) == s
  {
    if s != [] {
      SortOfSorted(le, s[..|s| - 1]);
    }
  }

  /** A filter keeps a sorted sequence sorted. */
  lemma {:induction false} FilterSorted<T(!new)>(le: (T, T) -> bool, p: T -> bool, s: seq<T>)
    requires SortedBy(le, s)
    ensures SortedBy(le, Filter(p, s))
  {
    if s != [] {
      var front, last := s[..|s| - 1], s[|s| - 1];
      FilterSorted(le, p, front);
      forall x | x in Filter(p, front) ensures le(x, last) {
        var i :| 0 <= i < |front| && front[i] == x;
      }
    }
  }

  lemma SortDistinct<T(!new)>(le: (T, T) -> bool, s: seq<T>)
    requires Distinct(s)
    ensures Distinct(Sort(le, s))
  {
    DistinctIffSingle(s);
    DistinctIffSingle(Sort(le, s));
  }

  lemma {:induction false} DistinctIffSingle<T(!new)>(s: seq<T>)
    ensures Distinct(s) <==> forall x | x in multiset(s) :: multiset(s)[x] == 1
  {
    if s != [] {
      var front, last := s[..|s| - 1], s[|s| - 1];
      assert s == front + [last];
      DistinctIffSingle(front);
      if Distinct(s) {
        assert last !in front;
        assert last !in multiset(front);
      } else if last in front {
        assert multiset(s)[last] == multiset(front)[last] + 1 > 1;
      } else {
        var x :| x in multiset(front) && multiset(front)[x] != 1;
        assert multiset(s)[x] == multiset(front)[x];
      }
    }
  }

  // ---------- first match ----------

  /** `next((x for x in s if p(x)), None)`. */
  function First<T(!new)>(p: T -> bool, s: seq<T>): (r: Option<T>)
    ensures r.Some? ==> r.value in s && p(r.value)
    ensures r.None? ==> forall x | x in s :: !p(x)
  {
    if s == [] then None
    else
      assert s == s[..|s| - 1] + [s[|s| - 1]];
      var earlier := First(p, s[..|s| - 1]);
      if earlier.Some? then earlier
      else if p(s[|s| - 1]) then Some(s[|s| - 1])
      else None
  }

  lemma {:induction false} FirstIsFirst<T(!new)>(p: T -> bool, s: seq<T>) returns (k: nat)
    requires First(p, s).Some?
    ensures k < |s| && s[k] == First(p, s).value
    ensures forall i | 0 <= i < k :: !p(s[i])
  {
    var front := s[..|s| - 1];
    if First(p, front).Some? {
      k := FirstIsFirst(p, front);
    } else {
      k := |s| - 1;
      assert forall i | 0 <= i < k :: s[i] in front;
    }
  }

  /** An element before which nothing matches is the first match. */
  lemma {:induction false} FirstAt<T(!new)>(p: T -> bool, s: seq<T>, k: nat)
    requires k < |s| && p(s[k]) && forall i | 0 <= i < k :: !p(s[i])
    ensures First(p, s) == Some(s[k])
  {
    if k < |s| - 1 {
      FirstAt(p, s[..|s| - 1], k);
    }
  }

  /** Dropping elements other than the first match does not change it. */
  lemma {:induction false} FirstAfterFilter<T(!new)>(p: T -> bool, keep: T -> bool, s: seq<T>)
    requires First(p, s).Some? ==> keep(First(p, s).value)
    ensures First(p, Filter(keep, s)) == First(p, s)
  {
    if s != [] {
      var front, last := s[..|s| - 1], s[|s| - 1];
      assert s == front + [last];
      FirstAfterFilter(p, keep, front);
      assert (Filter(keep, front) + [last])[..|Filter(keep, front)|] == Filter(keep, front);
    }
  }

  // ---------- nested loops over pairs ----------

  /** The results for element `i` with the elements `i + 1 .. j`, in order. */
  function RowResults<T(!new), R(!new)>(check: (T, T) -> Option<R>, s: seq<T>, i: nat, j: nat): seq<R>
    requires i < j <= |s|
  {
    if j == i + 1 then []
    else
      var result := check(s[i], s[j - 1]);
      RowResults(check, s, i, j - 1) + (if result.Some? then [result.value] else [])
  }

  /** The results for the first `i` elements with every later element. */
  function PairResults<T(!new), R(!new)>(check: (T, T) -> Option<R>, s: seq<T>, i: nat): seq<R>
    requires i <= |s|
  {
    if i == 0 then [] else PairResults(check, s, i - 1) + RowResults(check, s, i - 1, |s|)
  }

  lemma {:induction false} RowResultsMember<T(!new), R(!new)>(
      check: (T, T) -> Option<R>, s: seq<T>, i: nat, j: nat, r: R)
    requires i < j <= |s|
    ensures r in RowResults(check, s, i, j) <==> exists k | i < k < j :: check(s[i], s[k]) == Some(r)
  {
    if j > i + 1 {
      RowResultsMember(check, s, i, j - 1, r);
    }
  }

  lemma {:induction false} PairResultsMember<T(!new), R(!new)>(
      check: (T, T) -> Option<R>, s: seq<T>, i: nat, r: R)
    requires i <= |s|
    ensures r in PairResults(check, s, i) <==>
            exists k, l | 0 <= k < i && k < l < |s| :: check(s[k], s[l]) == Some(r)
  {
    hide RowResults;
    if i > 0 {
      PairResultsMember(check, s, i - 1, r);
      RowResultsMember(check, s, i - 1, |s|, r);
    }
  }

  /** The number of unordered pairs among `n` elements. */
  function PairCount(n: nat): nat {
    if n == 0 then 0 else PairCount(n - 1) + n - 1
  }

  lemma {:induction false} PairCountClosed(n: nat)
    ensures 2 * PairCount(n) == n * (n - 1)
  {
    if n > 0 {
      PairCountClosed(n - 1);
    }
  }

  /** The nested loops: every pair is checked once and the results keep the order. */
  method CheckPairs<T(!new), R(!new)>(check: (T, T) -> Option<R>, s: seq<T>)
    returns (results: seq<R>, checkedPairs: nat)
    ensures results == PairResults(check, s, |s|)
    ensures checkedPairs == PairCount(|s|) && 2 * checkedPairs == |s| * (|s| - 1)
  {
    results, checkedPairs := [], 0;
    var n := |s|;
    PairCountClosed(n);
    for left := 0 to n
      invariant results == PairResults(check, s, left)
      invariant checkedPairs == PairCount(n) - PairCount(n - left)
    {
      var before := results;
      for right := left + 1 to n
        invariant results == before + RowResults(check, s, left, right)
        invariant checkedPairs == PairCount(n) - PairCount(n - left) + (right - left - 1)
      {
        checkedPairs := checkedPairs + 1;
        var result := check(s[left], s[right]);
        if result.Some? {
          results := results + [result.value];
        }
      }
    }
  }

  // ---------- Python's order on strings ----------

  predicate StringLe(a: string, b: string) {
    a == [] || (b != [] && (a[0] < b[0] || (a[0] == b[0] && StringLe(a[1..], b[1..]))))
  }

  /** The order of dictionaries: a prefix comes first, otherwise the first difference decides. */
  lemma {:induction false} StringLeMeaning(a: string, b: string)
    ensures StringLe(a, b) <==> a <= b || exists i | 0 <= i < |a| && i < |b| :: a[..i] == b[..i] && a[i] < b[i]
  {
    if a != [] && b != [] {
      assert a == [a[0]] + a[1..] && b == [b[0]] + b[1..];
      if a[0] == b[0] {
        var s, t := a[1..], b[1..];
        StringLeMeaning(s, t);
        if i :| 0 <= i < |s| && i < |t| && s[..i] == t[..i] && s[i] < t[i] {
          assert a[..i + 1] == [a[0]] + s[..i] && b[..i + 1] == [b[0]] + t[..i];
          assert a[i + 1] < b[i + 1];
        }
        if i :| 0 <= i < |a| && i < |b| && a[..i] == b[..i] && a[i] < b[i] {
          assert i > 0 && s[..i - 1] == a[..i][1..] && t[..i - 1] == b[..i][1..];
          assert s[i - 1] < t[i - 1];
        }
      } else {
        assert a[..0] == b[..0];
        assert a[0] < b[0] ==> StringLe(a, b);
        forall i | 0 < i < |a| && i < |b| ensures a[..i] != b[..i] {
          assert a[..i][0] == a[0] && b[..i][0] == b[0];
        }
      }
    }
  }

  lemma {:induction false} StringLeTotal(a: string, b: string)
    ensures StringLe(a, b) || StringLe(b, a)
  {
    if a != [] && b != [] {
      StringLeTotal(a[1..], b[1..]);
    }
  }

  lemma {:induction false} StringLeTransitive(a: string, b: string, c: string)
    requires StringLe(a, b) && StringLe(b, c)
    ensures StringLe(a, c)
  {
    if a != [] && a[0] == b[0] == c[0] {
      StringLeTransitive(a[1..], b[1..], c[1..]);
    }
  }

  lemma StringLeTotalPreorder()
    ensures TotalPreorder(StringLe)
  {
    forall a, b ensures StringLe(a, b) || StringLe(b, a) {
      StringLeTotal(a, b);
    }
    forall a, b, c | StringLe(a, b) && StringLe(b, c) ensures StringLe(a, c) {
      StringLeTransitive(a, b, c);
    }
  }
}
