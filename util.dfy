/** Sequence operations shared by both source files: the model's stand-ins for the
    pandas filter, `unique()` and sort used on the score tables. */
module Util {

  datatype Option<T> = None | Some(value: T)

  /** Rows of `s` that satisfy `p`, in their original order (a boolean-mask selection). */
  function Filter<T(!new)>(s: seq<T>, p: T -> bool): (r: seq<T>)
    ensures |r| <= |s|
    ensures forall x :: x in r <==> x in s && p(x)
  {
    if s == [] then []
    else
      assert s == [s[0]] + s[1..];
      (if p(s[0]) then [s[0]] else []) + Filter(s[1..], p)
  }

  /** The selection keeps every selected value as often as it occurs, and no other. */
  lemma {:induction false} FilterCount<T(!new)>(s: seq<T>, p: T -> bool)
    ensures forall x :: multiset(Filter(s, p))[x] == if p(x) then multiset(s)[x] else 0
  {
    if s != [] {
      assert s == [s[0]] + s[1..];
      FilterCount(s[1..], p);
    }
  }

  lemma AppendAssoc<T>(x: seq<T>, y: seq<T>, z: seq<T>)
    ensures x + (y + z) == (x + y) + z
  {
  }

  /** The selection keeps the original order: selecting from two consecutive parts is
      selecting from each part and joining the results. */
  lemma {:induction false} FilterAppend<T(!new)>(a: seq<T>, b: seq<T>, p: T -> bool)
    ensures Filter(a + b, p) == Filter(a, p) + Filter(b, p)
  {
    if a == [] {
      assert a + b == b;
    } else {
      var head := if p(a[0]) then [a[0]] else [];
      assert (a + b)[0] == a[0];
      assert (a + b)[1..] == a[1..] + b;
      assert Filter(a + b, p) == head + Filter(a[1..] + b, p);
      FilterAppend(a[1..], b, p);
      assert Filter(a, p) == head + Filter(a[1..], p);
      AppendAssoc(head, Filter(a[1..], p), Filter(b, p));
    }
  }

  /** The selection from `s[1..]` sits behind the first element of `s` when that is kept. */
  lemma FilterTail<T(!new)>(s: seq<T>, p: T -> bool)
    requires s != []
    ensures p(s[0]) ==> Filter(s, p) == [s[0]] + Filter(s[1..], p)
    ensures !p(s[0]) ==> Filter(s, p) == Filter(s[1..], p)
  {
  }

  /** When the first element is kept, the rest of the selection is the selection from `s[1..]`. */
  lemma FilterTailEntries<T(!new)>(s: seq<T>, p: T -> bool, q: T -> bool)
    requires s != [] && p(s[0])
    requires forall k' :: 0 < k' < |Filter(s, p)| ==> !q(Filter(s, p)[k'])
    ensures forall i :: 0 <= i < |Filter(s[1..], p)| ==> !q(Filter(s[1..], p)[i])
  {
    FilterTail(s, p);
    forall i | 0 <= i < |Filter(s[1..], p)| ensures !q(Filter(s[1..], p)[i]) {
      assert Filter(s, p)[i + 1] == Filter(s[1..], p)[i];
    }
  }

  /** A kept first element with no later selected entry having `q` means no later
      element of `s` is both selected and has `q`. */
  lemma FilterHeadLast<T(!new)>(s: seq<T>, p: T -> bool, q: T -> bool)
    requires s != [] && p(s[0])
    requires forall k' :: 0 < k' < |Filter(s, p)| ==> !q(Filter(s, p)[k'])
    ensures forall j' :: 0 < j' < |s| ==> !(p(s[j']) && q(s[j']))
  {
    FilterTailEntries(s, p, q);
    var t := Filter(s[1..], p);
    forall j' | 0 < j' < |s| && p(s[j']) ensures !q(s[j']) {
      assert s[j'] == s[1..][j' - 1];
      assert s[j'] in t;
    }
  }

  /** What holds after position `j` of `s[1..]` holds after position `j + 1` of `s`. */
  lemma NoLaterShift<T>(s: seq<T>, p: T -> bool, q: T -> bool, j: int)
    requires s != [] && 0 <= j < |s| - 1
    requires forall j' :: j < j' < |s[1..]| ==> !(p(s[1..][j']) && q(s[1..][j']))
    ensures forall j' :: j + 1 < j' < |s| ==> !(p(s[j']) && q(s[j']))
  {
    forall j' | j + 1 < j' < |s| ensures !(p(s[j']) && q(s[j'])) {
      assert s[j'] == s[1..][j' - 1];
    }
  }

  /** Entries after `k` of `[x] + t` are entries after `k - 1` of `t`. */
  lemma NoLaterCons<T>(x: T, t: seq<T>, q: T -> bool, k: int)
    requires 0 < k < |t| + 1
    requires forall k' :: k < k' < |[x] + t| ==> !q(([x] + t)[k'])
    ensures ([x] + t)[k] == t[k - 1]
    ensures forall k' :: k - 1 < k' < |t| ==> !q(t[k'])
  {
    forall k' | k - 1 < k' < |t| ensures !q(t[k']) {
      assert ([x] + t)[k' + 1] == t[k'];
    }
  }

  /** The element of `s` behind entry `k` of the selection, when no later selected
      entry has `q`: no later element of `s` is both selected and has `q`. */
  lemma {:induction false} FilterLastSource<T(!new)>(s: seq<T>, p: T -> bool, q: T -> bool, k: int)
    returns (j: int)
    requires 0 <= k < |Filter(s, p)|
    requires forall k' :: k < k' < |Filter(s, p)| ==> !q(Filter(s, p)[k'])
    ensures 0 <= j < |s| && s[j] == Filter(s, p)[k] && p(s[j])
    ensures forall j' :: j < j' < |s| ==> !(p(s[j']) && q(s[j']))
  {
    var t := Filter(s[1..], p);
    FilterTail(s, p);
    var k0 := k;
    if p(s[0]) {
      if k == 0 {
        FilterHeadLast(s, p, q);
        return 0;
      }
      NoLaterCons(s[0], t, q, k);
      k0 := k - 1;
    }
    var j0 := FilterLastSource(s[1..], p, q, k0);
    NoLaterShift(s, p, q, j0);
    j := j0 + 1;
    assert s[j] == s[1..][j0];
  }

  /** The last selected element with property `q` is an element of `s` after which
      no element of `s` is both selected and has `q` (`.iloc[-1]` of a selection). */
  lemma FilterLastMatch<T(!new)>(s: seq<T>, p: T -> bool, q: T -> bool, k: int)
    requires 0 <= k < |Filter(s, p)|
    requires forall k' :: k < k' < |Filter(s, p)| ==> !q(Filter(s, p)[k'])
    ensures exists j :: 0 <= j < |s| && s[j] == Filter(s, p)[k] && p(s[j]) &&
              forall j' :: j < j' < |s| ==> !(p(s[j']) && q(s[j']))
  {
    var j := FilterLastSource(s, p, q, k);
  }

  /** Every value occurs at most once. */
  ghost predicate NoDups<T(!new)>(s: seq<T>) {
    forall x :: multiset(s)[x] <= 1
  }

  /** The distinct values of `s` in order of first appearance (pandas `unique()`);
      the order is stated by `UniqueFirstAppearanceOrder`. */
  function Unique<T(==,!new)>(s: seq<T>): (r: seq<T>)
    ensures NoDups(r)
    ensures forall x :: x in r <==> x in s
  {
    if s == [] then []
    else
      var last := s[|s| - 1];
      assert s == s[..|s| - 1] + [last];
      var u := Unique(s[..|s| - 1]);
      if last in u then u else u + [last]
  }

  /** Position of the first occurrence of `x` in `s`. */
  function FirstIndex<T(==)>(s: seq<T>, x: T): (i: nat)
    requires x in s
    ensures i < |s| && s[i] == x
    ensures forall j :: 0 <= j < i ==> s[j] != x
  {
    if s[0] == x then 0 else 1 + FirstIndex(s[1..], x)
  }

  lemma FirstIndexPrefix<T>(s: seq<T>, t: seq<T>, x: T)
    requires x in s
    ensures FirstIndex(s + t, x) == FirstIndex(s, x)
  {
    var i := FirstIndex(s, x);
    assert (s + t)[i] == x;
  }

  /** `Unique` lists the distinct values in order of their first appearance in `s`. */
  lemma {:induction false} UniqueFirstAppearanceOrder<T(!new)>(s: seq<T>, i: int, j: int)
    requires 0 <= i < j < |Unique(s)|
    ensures Unique(s)[i] in s && Unique(s)[j] in s
    ensures FirstIndex(s, Unique(s)[i]) < FirstIndex(s, Unique(s)[j])
  {
    var init := s[..|s| - 1];
    var last := s[|s| - 1];
    assert s == init + [last];
    var u := Unique(init);
    assert u[i] in init;
    FirstIndexPrefix(init, [last], u[i]);
    if j < |u| {
      assert Unique(s)[i] == u[i] && Unique(s)[j] == u[j];
      UniqueFirstAppearanceOrder(init, i, j);
      FirstIndexPrefix(init, [last], u[j]);
    } else {
      assert last !in init;
      assert Unique(s)[j] == last;
      assert FirstIndex(s, last) == |init|;
    }
  }

  /** Neighbouring elements are in non-decreasing key order. */
  ghost predicate Sorted<T>(s: seq<T>, key: T -> int) {
    forall i :: 0 < i < |s| ==> key(s[i - 1]) <= key(s[i])
  }

  lemma {:induction false} SortedPairwise<T>(s: seq<T>, key: T -> int, i: int, j: int)
    requires Sorted(s, key)
    requires 0 <= i <= j < |s|
    ensures key(s[i]) <= key(s[j])
    decreases j - i
  {
    if i < j {
      SortedPairwise(s, key, i, j - 1);
    }
  }

  /** Inserts `x` before the first element whose key is not smaller. */
  function Insert<T>(x: T, t: seq<T>, key: T -> int): (r: seq<T>)
    requires Sorted(t, key)
    ensures |r| == |t| + 1
    ensures multiset(r) == multiset(t) + multiset{x}
    ensures r[0] == x || (t != [] && r[0] == t[0])
    ensures Sorted(r, key)
  {
    if t == [] then [x]
    else if key(x) <= key(t[0]) then [x] + t
    else
      assert t == [t[0]] + t[1..];
      [t[0]] + Insert(x, t[1..], key)
  }

  /** Insertion sort by ascending key. */
  function SortByKey<T>(s: seq<T>, key: T -> int): (r: seq<T>)
    ensures multiset(r) == multiset(s)
    ensures Sorted(r, key)
  {
    if s == [] then []
    else
      assert s == [s[0]] + s[1..];
      Insert(s[0], SortByKey(s[1..], key), key)
  }
}
