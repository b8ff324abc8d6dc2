/**
 * ORDER BY on one column: the sort keys of the listed columns, the order
 * between them, and an insertion sort that yields a sorted permutation.
 */
module Ordering {

  /** The value a row exposes in its ORDER BY column. */
  datatype Key = Flag(b: bool) | Text(s: string)

  datatype Dir = Asc | Desc

  /** Lexicographic order of strings by character code. */
  predicate StrLe(a: string, b: string) {
    a == [] || (b != [] && (a[0] < b[0] || (a[0] == b[0] && StrLe(a[1..], b[1..]))))
  }

  /** `false` sorts before `true`; texts by StrLe; (keys of one column never mix). */
  predicate KeyLe(x: Key, y: Key) {
    match (x, y)
    case (Flag(a), Flag(b)) => !a || b
    case (Flag(_), Text(_)) => true
    case (Text(_), Flag(_)) => false
    case (Text(a), Text(b)) => StrLe(a, b)
  }

  /** `x` may come before `y` in direction `dir`. */
  predicate Before(x: Key, y: Key, dir: Dir) {
    if dir == Asc then KeyLe(x, y) else KeyLe(y, x)
  }

  lemma {:induction false} StrLeTotal(a: string, b: string)
    ensures StrLe(a, b) || StrLe(b, a)
  {
    if a != [] && b != [] && a[0] == b[0] { StrLeTotal(a[1..], b[1..]); }
  }

  lemma {:induction false} StrLeTransitive(a: string, b: string, c: string)
    requires StrLe(a, b) && StrLe(b, c)
    ensures StrLe(a, c)
  {
    if a != [] && b != [] && c != [] && a[0] == b[0] && b[0] == c[0] {
      StrLeTransitive(a[1..], b[1..], c[1..]);
    }
  }

  lemma BeforeTotal(x: Key, y: Key, dir: Dir)
    ensures Before(x, y, dir) || Before(y, x, dir)
  {
    if x.Text? && y.Text? { StrLeTotal(x.s, y.s); }
  }

  lemma BeforeTransitive(x: Key, y: Key, z: Key, dir: Dir)
    requires Before(x, y, dir) && Before(y, z, dir)
    ensures Before(x, z, dir)
  {
    if x.Text? && y.Text? && z.Text? {
      if dir == Asc { StrLeTransitive(x.s, y.s, z.s); } else { StrLeTransitive(z.s, y.s, x.s); }
    }
  }

  /** Every earlier element may come before every later one. */
  ghost predicate SortedBy<T>(s: seq<T>, key: T -> Key, dir: Dir) {
    forall i, j :: 0 <= i < j < |s| ==> Before(key(s[i]), key(s[j]), dir)
  }

  function Insert<T>(x: T, s: seq<T>, key: T -> Key, dir: Dir): seq<T> {
    if s == [] then [x]
    else if Before(key(x), key(s[0]), dir) then [x] + s
    else [s[0]] + Insert(x, s[1..], key, dir)
  }

  /** The rows in the order ORDER BY gives them. */
  function SortBy<T>(s: seq<T>, key: T -> Key, dir: Dir): seq<T> {
    if s == [] then [] else Insert(s[0], SortBy(s[1..], key, dir), key, dir)
  }

  /** Every element of `s` may come after `b`. */
  ghost predicate AllAfter<T>(b: Key, s: seq<T>, key: T -> Key, dir: Dir) {
    forall j :: 0 <= j < |s| ==> Before(b, key(s[j]), dir)
  }

  lemma {:induction false} InsertPerm<T>(x: T, s: seq<T>, key: T -> Key, dir: Dir)
    ensures multiset(Insert(x, s, key, dir)) == multiset(s) + multiset{x}
  {
    if s != [] && !Before(key(x), key(s[0]), dir) {
      InsertPerm(x, s[1..], key, dir);
      assert s == [s[0]] + s[1..];
    }
  }

  lemma {:induction false} InsertAllAfter<T>(b: Key, x: T, s: seq<T>, key: T -> Key, dir: Dir)
    requires AllAfter(b, s, key, dir) && Before(b, key(x), dir)
    ensures AllAfter(b, Insert(x, s, key, dir), key, dir)
  {
    if s != [] && !Before(key(x), key(s[0]), dir) {
      InsertAllAfter(b, x, s[1..], key, dir);
    }
  }

  lemma {:induction false} InsertSorted<T>(x: T, s: seq<T>, key: T -> Key, dir: Dir)
    requires SortedBy(s, key, dir)
    ensures SortedBy(Insert(x, s, key, dir), key, dir)
  {
    if s == [] {
    } else if Before(key(x), key(s[0]), dir) {
      var r := [x] + s;
      forall i, j | 0 <= i < j < |r| ensures Before(key(r[i]), key(r[j]), dir) {
        if i == 0 && j > 1 { BeforeTransitive(key(x), key(s[0]), key(s[j - 1]), dir); }
      }
    } else {
      var t := s[1..];
      InsertSorted(x, t, key, dir);
      BeforeTotal(key(x), key(s[0]), dir);
      assert AllAfter(key(s[0]), t, key, dir) by {
        forall j | 0 <= j < |t| ensures Before(key(s[0]), key(t[j]), dir) {
          assert t[j] == s[j + 1];
        }
      }
      InsertAllAfter(key(s[0]), x, t, key, dir);
    }
  }

  /** ORDER BY yields a sorted permutation of its input. */
  lemma {:induction false} SortBySorted<T>(s: seq<T>, key: T -> Key, dir: Dir)
    ensures multiset(SortBy(s, key, dir)) == multiset(s)
    ensures SortedBy(SortBy(s, key, dir), key, dir)
  {
    if s != [] {
      SortBySorted(s[1..], key, dir);
      InsertPerm(s[0], SortBy(s[1..], key, dir), key, dir);
      InsertSorted(s[0], SortBy(s[1..], key, dir), key, dir);
      assert s == [s[0]] + s[1..];
    }
  }
}
