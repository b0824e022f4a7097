/**
 * The store's query primitives, as pure functions over a table held in insertion
 * order: the first row satisfying a condition (findFirst/findUnique), the rows
 * satisfying it (findMany with a where clause), the rows in a given order (orderBy)
 * and the integer fold over rows (reduce with +).
 */
module Query {
  import opened Common

  /** Index of the first row satisfying `p`. */
  function FindFirst<T>(s: seq<T>, p: T -> bool): (r: Option<nat>)
    ensures r.Some? ==> r.value < |s| && p(s[r.value])
    ensures r.Some? ==> forall j :: 0 <= j < r.value ==> !p(s[j])
    ensures r.None? <==> forall j :: 0 <= j < |s| ==> !p(s[j])
  {
    if s == [] then None
    else if p(s[0]) then Some(0)
    else match FindFirst(s[1..], p)
      case None => None
      case Some(i) => Some(i + 1)
  }

  /** The first row satisfying `p`. */
  function First<T(!new)>(s: seq<T>, p: T -> bool): (r: Option<T>)
    ensures r.Some? ==> r.value in s && p(r.value)
    ensures r.None? <==> forall x :: x in s ==> !p(x)
  {
    match FindFirst(s, p)
    case None => None
    case Some(i) => Some(s[i])
  }

  lemma FirstCons<T(!new)>(x: T, t: seq<T>, p: T -> bool)
    ensures First([x] + t, p) == if p(x) then Some(x) else First(t, p)
  {
    assert ([x] + t)[1..] == t;
  }

  /** Looking among the rows that satisfy a weaker condition `q` finds the same row. */
  lemma {:induction false} FirstFiltered<T(!new)>(s: seq<T>, p: T -> bool, q: T -> bool)
    requires forall x :: p(x) ==> q(x)
    ensures First(Filter(s, q), p) == First(s, p)
  {
    if s != [] {
      FirstFiltered(s[1..], p, q);
      assert s == [s[0]] + s[1..];
      FirstCons(s[0], s[1..], p);
      if q(s[0]) {
        FirstCons(s[0], Filter(s[1..], q), p);
      }
    }
  }

  /** Two tables that agree row by row on `p` have their first `p`-row at the same index. */
  lemma {:induction false} FindFirstAgree<T>(s: seq<T>, t: seq<T>, p: T -> bool)
    requires |s| == |t| && forall k :: 0 <= k < |s| ==> p(s[k]) == p(t[k])
    ensures FindFirst(s, p) == FindFirst(t, p)
  {
    if s != [] {
      FindFirstAgree(s[1..], t[1..], p);
    }
  }

  /** The rows satisfying `p`, in table order. */
  function Filter<T(!new)>(s: seq<T>, p: T -> bool): (r: seq<T>)
    ensures |r| <= |s|
    ensures forall x :: x in r <==> x in s && p(x)
  {
    if s == [] then []
    else
      var rest := Filter(s[1..], p);
      assert s == [s[0]] + s[1..];
      if p(s[0]) then [s[0]] + rest else rest
  }

  lemma FilterCons<T(!new)>(x: T, t: seq<T>, p: T -> bool)
    ensures Filter([x] + t, p) == (if p(x) then [x] else []) + Filter(t, p)
  {
    assert ([x] + t)[1..] == t;
  }

  lemma {:induction false} FilterAppend<T(!new)>(s: seq<T>, t: seq<T>, p: T -> bool)
    ensures Filter(s + t, p) == Filter(s, p) + Filter(t, p)
  {
    if s == [] {
      assert s + t == t;
    } else {
      var head := if p(s[0]) then [s[0]] else [];
      calc {
        Filter(s + t, p);
        { assert s + t == [s[0]] + (s[1..] + t); FilterCons(s[0], s[1..] + t, p); }
        head + Filter(s[1..] + t, p);
        { FilterAppend(s[1..], t, p); }
        head + (Filter(s[1..], p) + Filter(t, p));
        (head + Filter(s[1..], p)) + Filter(t, p);
        { assert s == [s[0]] + s[1..]; FilterCons(s[0], s[1..], p); }
        Filter(s, p) + Filter(t, p);
      }
    }
  }

  /** A filter that every row passes returns the table unchanged. */
  lemma {:induction false} FilterAllPass<T(!new)>(s: seq<T>, p: T -> bool)
    requires forall k :: 0 <= k < |s| ==> p(s[k])
    ensures Filter(s, p) == s
  {
    if s != [] {
      FilterAllPass(s[1..], p);
      assert s == [s[0]] + s[1..];
    }
  }

  /** No two rows of the table share a key. */
  predicate KeysDistinct<T>(s: seq<T>, key: T -> int) {
    forall i, j :: 0 <= i < j < |s| ==> key(s[i]) != key(s[j])
  }

  /** Filtering a table whose rows have distinct keys leaves rows with distinct keys. */
  lemma {:induction false} FilterKeepsKeysDistinct<T(!new)>(s: seq<T>, p: T -> bool, key: T -> int)
    requires KeysDistinct(s, key)
    ensures KeysDistinct(Filter(s, p), key)
  {
    if s != [] {
      var rest := Filter(s[1..], p);
      FilterKeepsKeysDistinct(s[1..], p, key);
      if p(s[0]) {
        var r := [s[0]] + rest;
        assert Filter(s, p) == r;
        forall i, j | 0 <= i < j < |r| ensures key(r[i]) != key(r[j]) {
          if i == 0 {
            assert r[j] in s[1..];
            var m :| 0 <= m < |s[1..]| && s[1..][m] == r[j];
            assert s[m + 1] == r[j];
          } else {
            assert r[i] == rest[i - 1] && r[j] == rest[j - 1];
          }
        }
      }
    }
  }

  /** In a table whose rows have distinct keys, removing row k removes exactly the
      rows with its key. */
  lemma RemovedByKey<T>(s: seq<T>, key: T -> int, k: nat)
    requires k < |s| && forall i, j :: 0 <= i < j < |s| ==> key(s[i]) != key(s[j])
    ensures var rest := s[..k] + s[k + 1..];
            (forall x :: x in rest ==> key(x) != key(s[k]))
            && (forall x :: x in s && key(x) != key(s[k]) ==> x in rest)
  {
    var rest := s[..k] + s[k + 1..];
    forall x | x in rest ensures key(x) != key(s[k]) {
      var i :| 0 <= i < |rest| && rest[i] == x;
      assert x == s[if i < k then i else i + 1];
    }
    forall x | x in s && key(x) != key(s[k]) ensures x in rest {
      var i :| 0 <= i < |s| && s[i] == x;
      assert x == rest[if i < k then i else i - 1];
    }
  }

  /** `rows.map(f)` with a callback that can throw: every row's value in order, or the
      failure of some row. */
  function MapAll<T, U>(s: seq<T>, f: T -> Result<U>): (r: Result<seq<U>>)
    ensures r.Ok? <==> forall k :: 0 <= k < |s| ==> f(s[k]).Ok?
    ensures r.Ok? ==> |r.value| == |s| && forall k :: 0 <= k < |s| ==> f(s[k]) == Ok(r.value[k])
    ensures r.Err? ==> exists k :: 0 <= k < |s| && f(s[k]) == Err(r.error)
  {
    if s == [] then Ok([])
    else
      match f(s[0])
      case Err(e) => Err(e)
      case Ok(first) =>
        match MapAll(s[1..], f)
        case Err(e) => Err(e)
        case Ok(rest) => Ok([first] + rest)
  }

  // ---- ordering -------------------------------------------------------------

  ghost predicate TotalPreorder<T(!new)>(le: (T, T) -> bool) {
    && (forall a, b :: le(a, b) || le(b, a))
    && (forall a, b, c :: le(a, b) && le(b, c) ==> le(a, c))
  }

  ghost predicate SortedBy<T>(s: seq<T>, le: (T, T) -> bool) {
    forall i, j :: 0 <= i < j < |s| ==> le(s[i], s[j])
  }

  /** A row below every row of `t` and below `x` is below every row of any
      arrangement of `t` with `x` added. */
  lemma BelowAll<T(!new)>(y: T, x: T, t: seq<T>, r: seq<T>, le: (T, T) -> bool)
    requires le(y, x) && forall k :: 0 <= k < |t| ==> le(y, t[k])
    requires multiset(r) == multiset(t) + multiset{x}
    ensures forall k :: 0 <= k < |r| ==> le(y, r[k])
  {
    forall k | 0 <= k < |r| ensures le(y, r[k]) {
      assert r[k] in multiset(r);
      if r[k] != x {
        assert r[k] in multiset(t);
        var j :| 0 <= j < |t| && t[j] == r[k];
      }
    }
  }

  /** A row below every row of a sorted sequence can head it. */
  lemma SortedCons<T>(y: T, r: seq<T>, le: (T, T) -> bool)
    requires SortedBy(r, le) && forall k :: 0 <= k < |r| ==> le(y, r[k])
    ensures SortedBy([y] + r, le)
  {
    var c := [y] + r;
    forall i, j | 0 <= i < j < |c| ensures le(c[i], c[j]) {
      assert c[j] == r[j - 1];
      if i > 0 {
        assert c[i] == r[i - 1];
      }
    }
  }

  /** A row below the head of a sorted sequence is below all of it. */
  lemma BelowHead<T(!new)>(x: T, s: seq<T>, le: (T, T) -> bool)
    requires TotalPreorder(le) && SortedBy(s, le) && s != [] && le(x, s[0])
    ensures forall k :: 0 <= k < |s| ==> le(x, s[k])
  {
    forall k | 0 < k < |s| ensures le(x, s[k]) {
      assert le(s[0], s[k]);
    }
  }

  function Insert<T(!new)>(x: T, s: seq<T>, le: (T, T) -> bool): (r: seq<T>)
    requires TotalPreorder(le) && SortedBy(s, le)
    ensures multiset(r) == multiset(s) + multiset{x}
    ensures SortedBy(r, le)
  {
    if s == [] then [x]
    else if le(x, s[0]) then
      BelowHead(x, s, le);
      SortedCons(x, s, le);
      [x] + s
    else
      var tail := s[1..];
      assert forall k :: 0 <= k < |tail| ==> tail[k] == s[k + 1];
      var rest := Insert(x, tail, le);
      BelowAll(s[0], x, tail, rest, le);
      SortedCons(s[0], rest, le);
      assert s == [s[0]] + tail;
      [s[0]] + rest
  }

  /** The rows of `s` arranged in the order `le` (ascending by a key). */
  function SortBy<T(!new)>(s: seq<T>, le: (T, T) -> bool): (r: seq<T>)
    requires TotalPreorder(le)
    ensures multiset(r) == multiset(s)
    ensures SortedBy(r, le)
  {
    if s == [] then []
    else
      assert s == [s[0]] + s[1..];
      Insert(s[0], SortBy(s[1..], le), le)
  }

  /** Lexicographic order on strings by character code, as the store compares text. */
  predicate LexLe(a: string, b: string)
  {
    a == [] || (b != [] && (a[0] < b[0] || (a[0] == b[0] && LexLe(a[1..], b[1..]))))
  }

  lemma {:induction false} LexLeTotal(a: string, b: string)
    ensures LexLe(a, b) || LexLe(b, a)
  {
    if a != [] && b != [] && a[0] == b[0] {
      LexLeTotal(a[1..], b[1..]);
    }
  }

  lemma {:induction false} LexLeTransitive(a: string, b: string, c: string)
    requires LexLe(a, b) && LexLe(b, c)
    ensures LexLe(a, c)
  {
    if a != [] && b != [] && c != [] && a[0] == b[0] && b[0] == c[0] {
      LexLeTransitive(a[1..], b[1..], c[1..]);
    }
  }

  // ---- integer folds --------------------------------------------------------

  /** `rows.reduce((sum, x) => sum + f(x), 0)`. */
  function Sum<T>(s: seq<T>, f: T -> nat): nat
  {
    if s == [] then 0 else f(s[0]) + Sum(s[1..], f)
  }

  lemma {:induction false} SumAppend<T>(s: seq<T>, t: seq<T>, f: T -> nat)
    ensures Sum(s + t, f) == Sum(s, f) + Sum(t, f)
  {
    if s == [] {
      assert s + t == t;
    } else {
      assert (s + t)[1..] == s[1..] + t;
      SumAppend(s[1..], t, f);
    }
  }

  /** Taking one row out of a sum. */
  lemma {:induction false} SumRemove<T>(t: seq<T>, i: nat, f: T -> nat)
    requires i < |t|
    ensures Sum(t, f) == f(t[i]) + Sum(t[..i] + t[i + 1..], f)
  {
    var before, after := t[..i], t[i + 1..];
    var rest := [t[i]] + after;
    assert t == before + rest;
    SumAppend(before, rest, f);
    assert rest[1..] == after;
    assert Sum(rest, f) == f(t[i]) + Sum(after, f);
    SumAppend(before, after, f);
  }

  /** Taking one row out of a sequence takes it out of its multiset. */
  lemma MultisetRemove<T>(t: seq<T>, i: nat)
    requires i < |t|
    ensures multiset(t[..i] + t[i + 1..]) == multiset(t) - multiset{t[i]}
  {
    assert t == t[..i] + [t[i]] + t[i + 1..];
  }

  /** A sum over rows does not depend on the rows' order. */
  lemma {:induction false} SumPermutation<T>(s: seq<T>, t: seq<T>, f: T -> nat)
    requires multiset(s) == multiset(t)
    ensures Sum(s, f) == Sum(t, f)
  {
    if s != [] {
      assert s == [s[0]] + s[1..];
      assert multiset(s[1..]) == multiset(s) - multiset{s[0]};
      assert s[0] in multiset(t);
      var i :| 0 <= i < |t| && t[i] == s[0];
      MultisetRemove(t, i);
      SumPermutation(s[1..], t[..i] + t[i + 1..], f);
      SumRemove(t, i, f);
    }
  }

  /** Each row contributes between `lo` and `hi`, so the sum lies between |s|*lo and |s|*hi. */
  lemma {:induction false} SumBounds<T>(s: seq<T>, f: T -> nat, lo: nat, hi: nat)
    requires forall k :: 0 <= k < |s| ==> lo <= f(s[k]) <= hi
    ensures |s| * lo <= Sum(s, f) <= |s| * hi
  {
    if s != [] {
      var rest := s[1..];
      assert forall k :: 0 <= k < |rest| ==> rest[k] == s[k + 1];
      SumBounds(rest, f, lo, hi);
      assert lo <= f(s[0]) <= hi;
      MulSucc(|rest|, lo);
      MulSucc(|rest|, hi);
    }
  }

  lemma MulSucc(n: nat, x: nat)
    ensures (n + 1) * x == n * x + x
  {
  }
}
