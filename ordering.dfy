/** Orders used by the database's `sort` clauses: the binary string order
    (code unit by code unit, the order of a collection without collation)
    and a stable sort by a total preorder. Documents with equal sort keys
    keep their stored order. */
module Ordering {

  /** `a` sorts before or equal to `b`, code unit by code unit; a proper prefix
      sorts first. */
  predicate StrLe(a: string, b: string)
    decreases |a|
  {
    a == [] || (b != [] && (a[0] < b[0] || (a[0] == b[0] && StrLe(a[1..], b[1..]))))
  }

  lemma {:induction false} StrLeTotal(a: string, b: string)
    ensures StrLe(a, b) || StrLe(b, a)
    decreases |a|
  {
    if a != [] && b != [] && a[0] == b[0] {
      StrLeTotal(a[1..], b[1..]);
    }
  }

  lemma {:induction false} StrLeTrans(a: string, b: string, c: string)
    requires StrLe(a, b) && StrLe(b, c)
    ensures StrLe(a, c)
    decreases |a|
  {
    if a != [] && b[0] == c[0] && a[0] == b[0] {
      StrLeTrans(a[1..], b[1..], c[1..]);
    }
  }

  /** Two strings that sort before each other are equal. */
  lemma {:induction false} StrLeAntisymmetric(a: string, b: string)
    requires StrLe(a, b) && StrLe(b, a)
    ensures a == b
    decreases |a|
  {
    if a != [] {
      StrLeAntisymmetric(a[1..], b[1..]);
      assert a == [a[0]] + a[1..] && b == [b[0]] + b[1..];
    }
  }

  ghost predicate TotalPreorder<T(!new)>(le: (T, T) -> bool)
  {
    (forall a, b :: le(a, b) || le(b, a)) &&
    (forall a, b, c :: le(a, b) && le(b, c) ==> le(a, c))
  }

  predicate SortedBy<T>(s: seq<T>, le: (T, T) -> bool)
  {
    forall i, j :: 0 <= i < j < |s| ==> le(s[i], s[j])
  }

  /** Insert `x` before the first element it sorts before or equal to. */
  function Insert<T>(x: T, s: seq<T>, le: (T, T) -> bool): (r: seq<T>)
    ensures multiset(r) == multiset(s) + multiset{x}
  {
    if s == [] then [x]
    else if le(x, s[0]) then [x] + s
    else
      assert s == [s[0]] + s[1..];
      [s[0]] + Insert(x, s[1..], le)
  }

  /** Stable insertion sort: an element is inserted into the sorted rest ahead
      of the elements it ties with, which came after it. */
  function SortBy<T>(s: seq<T>, le: (T, T) -> bool): (r: seq<T>)
    ensures multiset(r) == multiset(s)
  {
    if s == [] then []
    else
      assert s == [s[0]] + s[1..];
      Insert(s[0], SortBy(s[1..], le), le)
  }

  lemma {:induction false} InsertSorted<T(!new)>(x: T, s: seq<T>, le: (T, T) -> bool)
    requires TotalPreorder(le) && SortedBy(s, le)
    ensures SortedBy(Insert(x, s, le), le)
  {
    if s != [] && !le(x, s[0]) {
      InsertSorted(x, s[1..], le);
      var t := Insert(x, s[1..], le);
      var r := [s[0]] + t;
      assert le(s[0], x);
      forall k | 0 <= k < |t| ensures le(s[0], t[k]) {
        assert t[k] in multiset(t);
        assert t[k] == x || t[k] in multiset(s[1..]);
        if t[k] != x {
          var m :| 0 <= m < |s[1..]| && s[1..][m] == t[k];
          assert s[1 + m] == t[k];
        }
      }
      assert Insert(x, s, le) == r;
    }
  }

  /** The sorted sequence is ordered and holds the same elements. */
  lemma {:induction false} SortBySorted<T(!new)>(s: seq<T>, le: (T, T) -> bool)
    requires TotalPreorder(le)
    ensures SortedBy(SortBy(s, le), le)
    ensures multiset(SortBy(s, le)) == multiset(s)
  {
    if s != [] {
      SortBySorted(s[1..], le);
      InsertSorted(s[0], SortBy(s[1..], le), le);
    }
  }

  /** Sorting an already sorted sequence leaves it as it is. */
  lemma {:induction false} SortByIdentity<T>(s: seq<T>, le: (T, T) -> bool)
    requires SortedBy(s, le)
    ensures SortBy(s, le) == s
  {
    if s != [] {
      SortByIdentity(s[1..], le);
      assert s == [s[0]] + s[1..];
    }
  }

  /** Lexicographic order on (number, string) keys, e.g. `{ order: 1, label: 1 }`. */
  predicate PairLe(a: (int, string), b: (int, string))
  {
    a.0 < b.0 || (a.0 == b.0 && StrLe(a.1, b.1))
  }
}
