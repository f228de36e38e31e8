/** The list operations the library performs with array_filter,
    array_values, array_map/array_sum and first-match foreach loops, and
    the "running best" loop the CPU records use to pick a core. */
module Seqs {
  import opened Wrappers

  // ---------------------------------------------------------------
  // array_values(array_filter(...)): an order-preserving filter
  // ---------------------------------------------------------------

  function Filter<T>(s: seq<T>, p: T -> bool): (r: seq<T>)
    ensures |r| <= |s|
    ensures forall i :: 0 <= i < |r| ==> r[i] in s && p(r[i])
    ensures forall i :: 0 <= i < |s| && p(s[i]) ==> s[i] in r
    decreases |s|
  {
    if s == [] then []
    else
      var init := Filter(s[..|s| - 1], p);
      assert forall i :: 0 <= i < |s| - 1 ==> s[..|s| - 1][i] == s[i];
      if p(s[|s| - 1]) then init + [s[|s| - 1]] else init
  }

  /** Filtering distributes over concatenation, so the result keeps the
      input's order. */
  lemma {:induction false} FilterAppend<T>(a: seq<T>, b: seq<T>, p: T -> bool)
    ensures Filter(a + b, p) == Filter(a, p) + Filter(b, p)
    decreases |b|
  {
    if b == [] {
      assert a + b == a;
    } else {
      var b0 := b[..|b| - 1];
      assert (a + b)[..|a + b| - 1] == a + b0;
      FilterAppend(a, b0, p);
    }
  }

  /** A filter keeps every element exactly when the predicate holds throughout. */
  lemma {:induction false} FilterAll<T>(s: seq<T>, p: T -> bool)
    requires forall i :: 0 <= i < |s| ==> p(s[i])
    ensures Filter(s, p) == s
    decreases |s|
  {
    if s != [] {
      var s0 := s[..|s| - 1];
      FilterAll(s0, p);
      assert p(s[|s| - 1]);
      assert Filter(s, p) == Filter(s0, p) + [s[|s| - 1]];
      assert s0 + [s[|s| - 1]] == s;
    }
  }

  // ---------------------------------------------------------------
  // A loop that appends one optional row per input element
  // ---------------------------------------------------------------

  /** The rows a loop appends when element `x` yields `f(x)`, skipping
      the elements for which `f` gives None. */
  function FilterMap<T, U>(s: seq<T>, f: T -> Option<U>): (r: seq<U>)
    ensures |r| <= |s|
    decreases |s|
  {
    if s == [] then []
    else
      var init := FilterMap(s[..|s| - 1], f);
      match f(s[|s| - 1])
      case None => init
      case Some(y) => init + [y]
  }

  lemma {:induction false} FilterMapAppend<T, U>(a: seq<T>, b: seq<T>, f: T -> Option<U>)
    ensures FilterMap(a + b, f) == FilterMap(a, f) + FilterMap(b, f)
    decreases |b|
  {
    if b == [] {
      assert a + b == a;
    } else {
      var b0 := b[..|b| - 1];
      assert (a + b)[..|a + b| - 1] == a + b0;
      FilterMapAppend(a, b0, f);
    }
  }

  /** An element that yields no row can be dropped without changing the rows. */
  lemma FilterMapSkip<T, U>(s: seq<T>, i: int, f: T -> Option<U>)
    requires 0 <= i < |s| && f(s[i]).None?
    ensures FilterMap(s, f) == FilterMap(s[..i] + s[i + 1..], f)
  {
    assert s == s[..i] + [s[i]] + s[i + 1..];
    FilterMapAppend(s[..i] + [s[i]], s[i + 1..], f);
    FilterMapAppend(s[..i], [s[i]], f);
    FilterMapAppend(s[..i], s[i + 1..], f);
    assert FilterMap([s[i]], f) == [] by {
      assert [s[i]][..0] == [];
    }
  }

  /** The foreach that appends f(x) for every element x that yields a row. */
  method CollectFilterMap<T, U>(s: seq<T>, f: T -> Option<U>) returns (r: seq<U>)
    ensures r == FilterMap(s, f)
  {
    r := [];
    var i := 0;
    while i < |s|
      invariant 0 <= i <= |s|
      invariant r == FilterMap(s[..i], f)
    {
      assert s[..i + 1][..i] == s[..i];
      match f(s[i]) {
        case Some(y) =>
          r := r + [y];
        case None =>
      }
      i := i + 1;
    }
    assert s[..i] == s;
  }

  /** Every row comes from some element, and every element that yields a
      row contributes it. */
  lemma {:induction false} FilterMapMembers<T, U>(s: seq<T>, f: T -> Option<U>, y: U)
    ensures y in FilterMap(s, f) <==> exists i :: 0 <= i < |s| && f(s[i]) == Some(y)
    decreases |s|
  {
    if s != [] {
      var s0 := s[..|s| - 1];
      FilterMapMembers(s0, f, y);
      if exists i :: 0 <= i < |s0| && f(s0[i]) == Some(y) {
        var i :| 0 <= i < |s0| && f(s0[i]) == Some(y);
        assert f(s[i]) == Some(y);
      }
      if exists i :: 0 <= i < |s| && f(s[i]) == Some(y) {
        var i :| 0 <= i < |s| && f(s[i]) == Some(y);
        if i < |s0| {
          assert f(s0[i]) == Some(y);
        }
      }
    }
  }

  /** When every element yields a row, there is one row per element, in order. */
  lemma {:induction false} FilterMapTotal<T, U>(s: seq<T>, f: T -> Option<U>)
    requires forall i :: 0 <= i < |s| ==> f(s[i]).Some?
    ensures |FilterMap(s, f)| == |s|
    ensures forall i :: 0 <= i < |s| ==> FilterMap(s, f)[i] == f(s[i]).value
    decreases |s|
  {
    if s != [] {
      FilterMapTotal(s[..|s| - 1], f);
    }
  }

  // ---------------------------------------------------------------
  // A loop that assigns $map[$key] = $value per input element
  // ---------------------------------------------------------------

  /** The map a loop builds when element `x` yields the entry `f(x)`:
      later entries for the same key overwrite earlier ones. */
  function Keyed<T, K(==), V>(s: seq<T>, f: T -> Option<(K, V)>): map<K, V>
    decreases |s|
  {
    if s == [] then map[]
    else
      var m := Keyed(s[..|s| - 1], f);
      match f(s[|s| - 1])
      case None => m
      case Some(e) => m[e.0 := e.1]
  }

  /** The loop itself: one map assignment per element that yields an entry. */
  method CollectKeyed<T, K, V>(s: seq<T>, f: T -> Option<(K, V)>) returns (m: map<K, V>)
    ensures m == Keyed(s, f)
  {
    m := map[];
    var i := 0;
    while i < |s|
      invariant 0 <= i <= |s|
      invariant m == Keyed(s[..i], f)
    {
      assert s[..i + 1][..i] == s[..i];
      match f(s[i]) {
        case Some(e) =>
          m := m[e.0 := e.1];
        case None =>
      }
      i := i + 1;
    }
    assert s[..i] == s;
  }

  /** Element `x` yields an entry for key `k`. */
  predicate HasKey<T, K(==), V>(f: T -> Option<(K, V)>, x: T, k: K) {
    f(x).Some? && f(x).value.0 == k
  }

  /** A key is in the map exactly when some element yields an entry for it. */
  lemma {:induction false} KeyedKeys<T, K, V>(s: seq<T>, f: T -> Option<(K, V)>, k: K)
    ensures k in Keyed(s, f) <==> exists j :: 0 <= j < |s| && HasKey(f, s[j], k)
    decreases |s|
  {
    if s != [] {
      var init := s[..|s| - 1];
      KeyedKeys(init, f, k);
      if !HasKey(f, s[|s| - 1], k) {
        assert k in Keyed(s, f) <==> k in Keyed(init, f);
        if exists j :: 0 <= j < |init| && HasKey(f, init[j], k) {
          var j :| 0 <= j < |init| && HasKey(f, init[j], k);
          assert HasKey(f, s[j], k);
        }
        if exists j :: 0 <= j < |s| && HasKey(f, s[j], k) {
          var j :| 0 <= j < |s| && HasKey(f, s[j], k);
          assert HasKey(f, init[j], k);
        }
      } else {
        assert HasKey(f, s[|s| - 1], k);
      }
    }
  }

  /** The value of a key is the one the last element naming it yields. */
  lemma {:induction false} KeyedLastWins<T, K, V>(s: seq<T>, f: T -> Option<(K, V)>, k: K)
    requires k in Keyed(s, f)
    ensures exists j :: (0 <= j < |s| && f(s[j]) == Some((k, Keyed(s, f)[k]))
      && (forall j' :: j < j' < |s| ==> !HasKey(f, s[j'], k)))
    decreases |s|
  {
    var n := |s| - 1;
    var init := s[..n];
    if HasKey(f, s[n], k) {
      assert f(s[n]) == Some((k, Keyed(s, f)[k]));
    } else {
      assert Keyed(s, f)[k] == Keyed(init, f)[k];
      KeyedLastWins(init, f, k);
      var j :| 0 <= j < |init| && f(init[j]) == Some((k, Keyed(init, f)[k]))
        && (forall j' :: j < j' < |init| ==> !HasKey(f, init[j'], k));
      assert f(s[j]) == Some((k, Keyed(s, f)[k]));
      forall j' | j < j' < |s|
        ensures !HasKey(f, s[j'], k)
      {
        if j' < n {
          assert !HasKey(f, init[j'], k);
        }
      }
    }
  }

  // ---------------------------------------------------------------
  // A loop that increments one counter per element
  // ---------------------------------------------------------------

  /** How many elements `f` puts in class `k`. */
  function CountOf<T, K(==)>(s: seq<T>, f: T -> K, k: K): (n: nat)
    ensures n <= |s|
    decreases |s|
  {
    if s == [] then 0
    else CountOf(s[..|s| - 1], f, k) + (if f(s[|s| - 1]) == k then 1 else 0)
  }

  /** Counters for four different classes never add up to more than
      the number of elements, since each element lands in one class. */
  lemma {:induction false} FourCountsWithinLength<T, K>(s: seq<T>, f: T -> K, a: K, b: K, c: K, d: K)
    requires a != b && a != c && a != d && b != c && b != d && c != d
    ensures CountOf(s, f, a) + CountOf(s, f, b) + CountOf(s, f, c) + CountOf(s, f, d) <= |s|
    decreases |s|
  {
    if s != [] {
      FourCountsWithinLength(s[..|s| - 1], f, a, b, c, d);
    }
  }

  /** One more element raises the counter of its own class by one and
      leaves every other counter alone. */
  lemma CountOfSnoc<T, K>(s: seq<T>, x: T, f: T -> K, k: K)
    ensures CountOf(s + [x], f, k) == CountOf(s, f, k) + (if f(x) == k then 1 else 0)
  {
    assert (s + [x])[..|s|] == s;
  }

  /** Counts four keys in one pass over the sequence. */
  method CountFour<T, K(==)>(s: seq<T>, f: T -> K, a: K, b: K, c: K, d: K) returns (na: nat, nb: nat, nc: nat, nd: nat)
    ensures na == CountOf(s, f, a) && nb == CountOf(s, f, b)
    ensures nc == CountOf(s, f, c) && nd == CountOf(s, f, d)
  {
    na, nb, nc, nd := 0, 0, 0, 0;
    var i := 0;
    while i < |s|
      invariant 0 <= i <= |s|
      invariant na == CountOf(s[..i], f, a) && nb == CountOf(s[..i], f, b)
      invariant nc == CountOf(s[..i], f, c) && nd == CountOf(s[..i], f, d)
    {
      assert s[..i + 1] == s[..i] + [s[i]];
      CountOfSnoc(s[..i], s[i], f, a);
      CountOfSnoc(s[..i], s[i], f, b);
      CountOfSnoc(s[..i], s[i], f, c);
      CountOfSnoc(s[..i], s[i], f, d);
      var k := f(s[i]);
      if k == a { na := na + 1; }
      if k == b { nb := nb + 1; }
      if k == c { nc := nc + 1; }
      if k == d { nd := nd + 1; }
      i := i + 1;
    }
    assert s[..i] == s;
  }

  // ---------------------------------------------------------------
  // array_sum(array_map(...))
  // ---------------------------------------------------------------

  function Sum<T>(s: seq<T>, f: T -> int): int
    decreases |s|
  {
    if s == [] then 0 else Sum(s[..|s| - 1], f) + f(s[|s| - 1])
  }

  lemma {:induction false} SumAppend<T>(a: seq<T>, b: seq<T>, f: T -> int)
    ensures Sum(a + b, f) == Sum(a, f) + Sum(b, f)
    decreases |b|
  {
    if b == [] {
      assert a + b == a;
    } else {
      var b0 := b[..|b| - 1];
      assert (a + b)[..|a + b| - 1] == a + b0;
      SumAppend(a, b0, f);
    }
  }

  /** A sum of non-negative terms is at least each of its terms. */
  lemma {:induction false} SumBoundsTerm<T>(s: seq<T>, f: T -> int, k: nat)
    requires forall i :: 0 <= i < |s| ==> f(s[i]) >= 0
    requires k < |s|
    ensures 0 <= f(s[k]) <= Sum(s, f)
    decreases |s|
  {
    SumNonNegative(s[..|s| - 1], f);
    if k < |s| - 1 {
      SumBoundsTerm(s[..|s| - 1], f, k);
    }
  }

  lemma {:induction false} SumNonNegative<T>(s: seq<T>, f: T -> int)
    requires forall i :: 0 <= i < |s| ==> f(s[i]) >= 0
    ensures Sum(s, f) >= 0
    decreases |s|
  {
    if s != [] {
      SumNonNegative(s[..|s| - 1], f);
    }
  }

  /** Summing two projections separately adds up to summing their sum. */
  lemma {:induction false} SumAdd<T>(s: seq<T>, f: T -> int, g: T -> int, h: T -> int)
    requires forall i :: 0 <= i < |s| ==> h(s[i]) == f(s[i]) + g(s[i])
    ensures Sum(s, h) == Sum(s, f) + Sum(s, g)
    decreases |s|
  {
    if s != [] {
      SumAdd(s[..|s| - 1], f, g, h);
    }
  }

  // ---------------------------------------------------------------
  // foreach ... if (...) return $x; return null;
  // ---------------------------------------------------------------

  /** The index of the first element satisfying `p`. */
  function FirstIndex<T>(s: seq<T>, p: T -> bool): (r: Option<nat>)
    ensures r.None? <==> forall i :: 0 <= i < |s| ==> !p(s[i])
    ensures r.Some? ==> r.value < |s| && p(s[r.value])
    ensures r.Some? ==> forall i :: 0 <= i < r.value ==> !p(s[i])
  {
    if s == [] then None
    else if p(s[0]) then Some(0)
    else match FirstIndex(s[1..], p)
      case None => None
      case Some(i) => Some(i + 1)
  }

  /** The first element satisfying `p`, or None. */
  function Find<T>(s: seq<T>, p: T -> bool): Option<T> {
    match FirstIndex(s, p)
    case None => None
    case Some(i) => Some(s[i])
  }

  /** The first element satisfying `p` is found from the front, so
      elements appended later never change an existing answer. */
  lemma FindAppend<T>(a: seq<T>, b: seq<T>, p: T -> bool)
    requires Find(a, p).Some?
    ensures Find(a + b, p) == Find(a, p)
  {
    var i := FirstIndex(a, p).value;
    assert (a + b)[i] == a[i];
    assert forall k :: 0 <= k < i ==> (a + b)[k] == a[k];
  }

  // ---------------------------------------------------------------
  // Leftmost match: the first position whose probe succeeds
  // ---------------------------------------------------------------

  /** The result of the first position in [i, n) whose probe succeeds. */
  function FirstFrom<U>(i: nat, n: nat, f: nat -> Option<U>): Option<U>
    decreases n - i
  {
    if i >= n then None
    else if f(i).Some? then f(i)
    else FirstFrom(i + 1, n, f)
  }

  /** The search finds `d` exactly when some position's probe gives `d`
      and every earlier position's probe fails. */
  lemma {:induction false} FirstFromLeftmost<U>(i: nat, n: nat, f: nat -> Option<U>, d: U)
    ensures FirstFrom(i, n, f) == Some(d) <==>
      exists p :: i <= p < n && f(p) == Some(d) && forall q :: i <= q < p ==> f(q).None?
    decreases n - i
  {
    if i < n {
      FirstFromLeftmost(i + 1, n, f, d);
      if f(i).None? {
        if FirstFrom(i, n, f) == Some(d) {
          var p :| i + 1 <= p < n && f(p) == Some(d) && forall q :: i + 1 <= q < p ==> f(q).None?;
          assert forall q :: i <= q < p ==> f(q).None?;
        }
      } else if FirstFrom(i, n, f) != Some(d) {
        forall p | i <= p < n && f(p) == Some(d)
          ensures exists q :: i <= q < p && f(q).Some?
        {
          assert i < p && f(i).Some?;
        }
      }
    }
  }

  /** The search finds nothing exactly when every probe fails. */
  lemma {:induction false} FirstFromNone<U>(i: nat, n: nat, f: nat -> Option<U>)
    ensures FirstFrom(i, n, f).None? <==> forall p :: i <= p < n ==> f(p).None?
    decreases n - i
  {
    if i < n {
      FirstFromNone(i + 1, n, f);
    }
  }

  // ---------------------------------------------------------------
  // The running-best loop of busiestCore / idlestCore
  // ---------------------------------------------------------------

  /** `k` holds the largest score, and no earlier element reaches it:
      the element a loop that replaces its best only on a strictly
      larger score ends up with. */
  predicate IsFirstMax<T>(s: seq<T>, score: T -> real, k: int) {
    0 <= k < |s|
    && (forall j :: 0 <= j < |s| ==> score(s[j]) <= score(s[k]))
    && (forall j :: 0 <= j < k ==> score(s[j]) < score(s[k]))
  }

  /** The mirror image: the smallest score, earliest on ties. */
  predicate IsFirstMin<T>(s: seq<T>, score: T -> real, k: int) {
    0 <= k < |s|
    && (forall j :: 0 <= j < |s| ==> score(s[j]) >= score(s[k]))
    && (forall j :: 0 <= j < k ==> score(s[j]) > score(s[k]))
  }

  /** There is only one first maximum. */
  lemma FirstMaxUnique<T>(s: seq<T>, score: T -> real, k1: int, k2: int)
    requires IsFirstMax(s, score, k1) && IsFirstMax(s, score, k2)
    ensures k1 == k2
  {
    assert score(s[k1]) == score(s[k2]);
  }

  /** There is only one first minimum. */
  lemma FirstMinUnique<T>(s: seq<T>, score: T -> real, k1: int, k2: int)
    requires IsFirstMin(s, score, k1) && IsFirstMin(s, score, k2)
    ensures k1 == k2
  {
    assert score(s[k1]) == score(s[k2]);
  }

  /** The first maximum as a function, folding from the front as the
      loop does. */
  function FirstMaxIndex<T>(s: seq<T>, score: T -> real): (k: nat)
    requires |s| > 0
    ensures IsFirstMax(s, score, k)
    decreases |s|
  {
    if |s| == 1 then 0
    else
      var k0 := FirstMaxIndex(s[..|s| - 1], score);
      assert forall j :: 0 <= j < |s| - 1 ==> s[..|s| - 1][j] == s[j];
      if score(s[|s| - 1]) > score(s[k0]) then |s| - 1 else k0
  }

  /** Starts from the first element and walks all of them, replacing the
      best only on a strictly larger score. */
  method ArgFirstMax<T>(s: seq<T>, score: T -> real) returns (k: nat)
    requires |s| > 0
    ensures IsFirstMax(s, score, k)
  {
    k := 0;
    var best := score(s[0]);
    var i := 0;
    while i < |s|
      invariant 0 <= i <= |s|
      invariant k < |s| && (k == 0 || k < i)
      invariant best == score(s[k])
      invariant forall j :: 0 <= j < i ==> score(s[j]) <= best
      invariant forall j :: 0 <= j < k ==> score(s[j]) < best
    {
      var v := score(s[i]);
      if v > best {
        k := i;
        best := v;
      }
      i := i + 1;
    }
  }

  /** Starts from the first element and walks all of them, replacing the
      best only on a strictly smaller score. */
  method ArgFirstMin<T>(s: seq<T>, score: T -> real) returns (k: nat)
    requires |s| > 0
    ensures IsFirstMin(s, score, k)
  {
    k := 0;
    var best := score(s[0]);
    var i := 0;
    while i < |s|
      invariant 0 <= i <= |s|
      invariant k < |s| && (k == 0 || k < i)
      invariant best == score(s[k])
      invariant forall j :: 0 <= j < i ==> score(s[j]) >= best
      invariant forall j :: 0 <= j < k ==> score(s[j]) > best
    {
      var v := score(s[i]);
      if v < best {
        k := i;
        best := v;
      }
      i := i + 1;
    }
  }
}
