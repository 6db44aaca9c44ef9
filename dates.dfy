/**
 * Calendar-date keys of the day buckets and Python's `sorted` over them.
 *
 * A bucket key is the tuple `(d.year, d.month, d.day)`; Python compares such
 * tuples lexicographically, so `sorted(days.keys())` lists the dates in
 * ascending calendar order.
 */
module Dates {

  /** The `(year, month, day)` tuple of a record's local calendar date. */
  datatype DateKey = DateKey(year: int, month: int, day: int)

  /** Python's `a < b` on `(year, month, day)` tuples: lexicographic order. */
  predicate Before(a: DateKey, b: DateKey)
  {
    || a.year < b.year
    || (a.year == b.year && a.month < b.month)
    || (a.year == b.year && a.month == b.month && a.day < b.day)
  }

  /** Every key strictly precedes all keys after it. */
  predicate Ascending(keys: seq<DateKey>)
  {
    forall i, j :: 0 <= i < j < |keys| ==> Before(keys[i], keys[j])
  }

  /** `Before` is a strict total order on date keys. */
  lemma BeforeIsStrictTotalOrder(a: DateKey, b: DateKey, c: DateKey)
    ensures !Before(a, a)
    ensures Before(a, b) && Before(b, c) ==> Before(a, c)
    ensures a == b || Before(a, b) || Before(b, a)
  {
  }

  /** `m` is the least key of `s`. */
  predicate IsEarliest(m: DateKey, s: set<DateKey>)
  {
    m in s && forall k :: k in s ==> m == k || Before(m, k)
  }

  /** Every non-empty finite set of keys has a least element. */
  lemma {:induction false} HasEarliest(s: set<DateKey>)
    requires s != {}
    ensures exists m :: IsEarliest(m, s)
  {
    var x :| x in s;
    if s == {x} {
      assert IsEarliest(x, s);
    } else {
      var rest := s - {x};
      HasEarliest(rest);
      var m :| IsEarliest(m, rest);
      var e := if Before(x, m) then x else m;
      forall k | k in s ensures e == k || Before(e, k) {
        BeforeIsStrictTotalOrder(x, m, k);
        BeforeIsStrictTotalOrder(m, x, k);
      }
      assert IsEarliest(e, s);
    }
  }

  /** The least key of a non-empty set. */
  function Earliest(s: set<DateKey>): (m: DateKey)
    requires s != {}
    ensures m in s
    ensures forall k :: k in s && k != m ==> Before(m, k)
  {
    HasEarliest(s);
    var m :| IsEarliest(m, s);
    m
  }

  /** `sorted(days.keys())`: the keys of the set, each once, in ascending order. */
  function SortedKeys(s: set<DateKey>): (keys: seq<DateKey>)
    ensures |keys| == |s|
    ensures forall k :: k in keys <==> k in s
    ensures Ascending(keys)
    decreases |s|
  {
    if s == {} then []
    else
      var m := Earliest(s);
      var rest := SortedKeys(s - {m});
      assert forall j :: 0 <= j < |rest| ==> Before(m, rest[j]) by {
        forall j | 0 <= j < |rest| ensures Before(m, rest[j]) {
          assert rest[j] in s - {m};
        }
      }
      [m] + rest
  }
}
