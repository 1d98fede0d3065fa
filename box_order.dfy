/** `_sort_box_with_list`: annotation entries sorted by the centre of their
    box, top to bottom then left to right (or the other way round), keeping
    the input order of entries whose centres coincide, as Python's stable
    `sorted` does. */
module BoxOrder {
  import opened Annotation

  type Key = (real, real)

  /** Python's `<=` on pairs of floats: lexicographic. */
  predicate KeyLe(a: Key, b: Key) {
    a.0 < b.0 || (a.0 == b.0 && a.1 <= b.1)
  }

  lemma KeyLeTotal(a: Key, b: Key)
    ensures KeyLe(a, b) || KeyLe(b, a)
    ensures KeyLe(a, b) && KeyLe(b, a) ==> a == b
  {
  }

  /** Ordered non-decreasingly by `key`. */
  predicate SortedBy<T>(xs: seq<T>, key: T -> Key) {
    forall i, j :: 0 <= i < j < |xs| ==> KeyLe(key(xs[i]), key(xs[j]))
  }

  /** Put `x` in front of the first element whose key is not below its own. */
  function Insert<T>(x: T, ys: seq<T>, key: T -> Key): (r: seq<T>)
    ensures multiset(r) == multiset(ys) + multiset{x}
    ensures |r| == |ys| + 1
  {
    if ys == [] then [x]
    else if KeyLe(key(x), key(ys[0])) then [x] + ys
    else
      assert ys == [ys[0]] + ys[1..];
      [ys[0]] + Insert(x, ys[1..], key)
  }

  /** `sorted(xs, key=key)`: a stable sort, written as insertion of each
      element in front of the sorted rest. */
  function SortBy<T>(xs: seq<T>, key: T -> Key): (r: seq<T>)
    ensures multiset(r) == multiset(xs)
    ensures |r| == |xs|
  {
    if xs == [] then []
    else
      assert xs == [xs[0]] + xs[1..];
      Insert(xs[0], SortBy(xs[1..], key), key)
  }

  /** Inserting into a sorted sequence keeps it sorted. */
  lemma {:induction false} InsertSorted<T>(x: T, ys: seq<T>, key: T -> Key)
    requires SortedBy(ys, key)
    ensures SortedBy(Insert(x, ys, key), key)
  {
    if ys != [] && !KeyLe(key(x), key(ys[0])) {
      assert SortedBy(ys[1..], key);
      InsertSorted(x, ys[1..], key);
      var r := Insert(x, ys, key);
      var tail := Insert(x, ys[1..], key);
      assert r == [ys[0]] + tail;
      assert multiset(tail) == multiset(ys[1..]) + multiset{x};
      forall j | 1 <= j < |r| ensures KeyLe(key(r[0]), key(r[j])) {
        assert r[j] == tail[j - 1];
        assert r[j] in multiset(tail);
        if r[j] != x {
          assert r[j] in multiset(ys[1..]);
          var k :| 0 <= k < |ys[1..]| && ys[1..][k] == r[j];
          assert ys[k + 1] == r[j];
        }
      }
    }
  }

  /** The result is ordered by the key. */
  lemma {:induction false} SortBySorted<T>(xs: seq<T>, key: T -> Key)
    ensures SortedBy(SortBy(xs, key), key)
  {
    if xs != [] {
      SortBySorted(xs[1..], key);
      InsertSorted(xs[0], SortBy(xs[1..], key), key);
    }
  }

  /** The elements whose key is `k`, in order. */
  function WithKey<T>(xs: seq<T>, key: T -> Key, k: Key): seq<T> {
    if xs == [] then [] else (if key(xs[0]) == k then [xs[0]] else []) + WithKey(xs[1..], key, k)
  }

  lemma {:induction false} WithKeyAppend<T>(a: seq<T>, b: seq<T>, key: T -> Key, k: Key)
    ensures WithKey(a + b, key, k) == WithKey(a, key, k) + WithKey(b, key, k)
  {
    if a == [] {
      assert a + b == b;
    } else {
      assert (a + b)[1..] == a[1..] + b;
      WithKeyAppend(a[1..], b, key, k);
    }
  }

  /** `x` lands in front of every element with its own key. */
  lemma {:induction false} InsertWithKey<T>(x: T, ys: seq<T>, key: T -> Key, k: Key)
    ensures WithKey(Insert(x, ys, key), key, k) == (if key(x) == k then [x] else []) + WithKey(ys, key, k)
  {
    if ys == [] {
    } else if KeyLe(key(x), key(ys[0])) {
      WithKeyAppend([x], ys, key, k);
    } else {
      var t := Insert(x, ys[1..], key);
      assert Insert(x, ys, key) == [ys[0]] + t;
      InsertWithKey(x, ys[1..], key, k);
      WithKeyAppend([ys[0]], t, key, k);
      assert ys == [ys[0]] + ys[1..];
      WithKeyAppend([ys[0]], ys[1..], key, k);
      assert key(ys[0]) != key(x);
      if key(x) == k {
        assert WithKey([ys[0]], key, k) == [];
      } else {
        assert (if key(x) == k then [x] else []) == [];
      }
    }
  }

  /** Stability: for every key, the elements with that key keep their input
      order. */
  lemma {:induction false} SortByStable<T>(xs: seq<T>, key: T -> Key, k: Key)
    ensures WithKey(SortBy(xs, key), key, k) == WithKey(xs, key, k)
  {
    if xs != [] {
      SortByStable(xs[1..], key, k);
      InsertWithKey(xs[0], SortBy(xs[1..], key), key, k);
    }
  }

  /** The centre of an axis-aligned polygon, which is what `cv2.minAreaRect`
      reports for it: the midpoint of opposite corners. */
  function Centre(p: seq<real>): (c: (real, real))
    requires IsAxisAligned(p)
    ensures c.0 == (Corners(p)[0] + Corners(p)[2]) / 2.0 && c.1 == (Corners(p)[1] + Corners(p)[3]) / 2.0
  {
    ((p[0] + p[4]) / 2.0, (p[1] + p[5]) / 2.0)
  }

  /** The centre of the polygon `_bbox2poly` builds is the midpoint of the
      box, and it lies inside the box. */
  lemma CentreOfBox(b: seq<real>)
    requires |b| >= 4
    ensures Bbox2Poly(b).Success?
    ensures Centre(Bbox2Poly(b).value) == ((b[0] + b[2]) / 2.0, (b[1] + b[3]) / 2.0)
    ensures b[0] <= b[2] ==> b[0] <= Centre(Bbox2Poly(b).value).0 <= b[2]
    ensures b[1] <= b[3] ==> b[1] <= Centre(Bbox2Poly(b).value).1 <= b[3]
  {
  }

  /** Every entry has an axis-aligned polygon. */
  predicate AllAligned(anno: seq<Entry>) {
    forall i :: 0 <= i < |anno| ==> IsAxisAligned(anno[i].poly)
  }

  /** `compare_key`: `(centre_x, centre_y)` when `left_right_first`, else
      `(centre_y, centre_x)`. A polygon that is not axis-aligned gets the
      key `(0, 0)`; sorting is only applied to aligned ones. */
  function CompareKey(leftRightFirst: bool): Entry -> Key {
    (e: Entry) =>
      if IsAxisAligned(e.poly) then
        var c := Centre(e.poly);
        if leftRightFirst then (c.0, c.1) else (c.1, c.0)
      else (0.0, 0.0)
  }

  /** `_sort_box_with_list(anno, left_right_first)`. */
  function SortBoxWithList(anno: seq<Entry>, leftRightFirst: bool): (r: seq<Entry>)
    requires AllAligned(anno)
    ensures multiset(r) == multiset(anno)
  {
    SortBy(anno, CompareKey(leftRightFirst))
  }

  /** The sorted entries are a permutation of the input, ordered by centre
      (row-major by default, column-major when `left_right_first`), and
      entries with the same centre keep their input order. */
  lemma SortBoxWithListSpec(anno: seq<Entry>, leftRightFirst: bool)
    requires AllAligned(anno)
    ensures var r := SortBoxWithList(anno, leftRightFirst);
      && multiset(r) == multiset(anno)
      && AllAligned(r)
      && (forall i, j :: 0 <= i < j < |r| ==>
            var a := Centre(r[i].poly); var b := Centre(r[j].poly);
            if leftRightFirst then a.0 < b.0 || (a.0 == b.0 && a.1 <= b.1)
            else a.1 < b.1 || (a.1 == b.1 && a.0 <= b.0))
      && (forall k :: WithKey(r, CompareKey(leftRightFirst), k) == WithKey(anno, CompareKey(leftRightFirst), k))
  {
    var key := CompareKey(leftRightFirst);
    var r := SortBoxWithList(anno, leftRightFirst);
    SortBySorted(anno, key);
    forall i | 0 <= i < |r| ensures IsAxisAligned(r[i].poly) {
      assert r[i] in multiset(anno);
    }
    forall k {
      SortByStable(anno, key, k);
    }
  }
}
