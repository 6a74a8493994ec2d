/**
  Generic list operations the feed rewrites are built from: the first element with a
  property, the elements with and without it, and a cap on how many elements with it
  are kept. Each is defined by recursion on the last element, the order in which the
  pipelines' loops walk a list.
 */
module Seqs {

  /** Index of the first element satisfying `p`, or `|s|` when none does. */
  function FirstIndex<T>(s: seq<T>, p: T -> bool): (r: nat)
    ensures r <= |s|
    ensures r < |s| ==> p(s[r])
    ensures forall k :: 0 <= k < r ==> !p(s[k])
  {
    if s == [] then 0
    else if p(s[0]) then 0
    else
      var r := FirstIndex(s[1..], p);
      assert forall k :: 1 <= k < 1 + r ==> s[k] == s[1..][k - 1];
      1 + r
  }

  /** Appending an element moves the first match only when there was none before. */
  lemma FirstIndexSnoc<T>(s: seq<T>, x: T, p: T -> bool)
    ensures FirstIndex(s + [x], p) == if FirstIndex(s, p) < |s| then FirstIndex(s, p)
                                      else if p(x) then |s| else |s| + 1
  {
    var r := FirstIndex(s + [x], p);
    var q := FirstIndex(s, p);
    assert forall k :: 0 <= k < |s| ==> (s + [x])[k] == s[k];
    if q < |s| {
      assert (s + [x])[q] == s[q];
    } else if p(x) {
      assert (s + [x])[|s|] == x;
    } else {
      assert (s + [x])[|s|] == x;
    }
  }

  /** A position that satisfies the three properties of the first match is the first match. */
  lemma FirstIndexUnique<T>(s: seq<T>, p: T -> bool, q: nat)
    requires q <= |s|
    requires q < |s| ==> p(s[q])
    requires forall k :: 0 <= k < q ==> !p(s[k])
    ensures FirstIndex(s, p) == q
  {
  }

  /** Removing an element without `p` leaves the first element with `p` (if any) unchanged. */
  lemma FirstMatchRemove<T>(s: seq<T>, k: nat, p: T -> bool)
    requires k < |s| && !p(s[k])
    ensures FirstIndex(s, p) < |s| <==> FirstIndex(RemoveAt(s, k), p) < |s| - 1
    ensures FirstIndex(s, p) < |s| ==> RemoveAt(s, k)[FirstIndex(RemoveAt(s, k), p)] == s[FirstIndex(s, p)]
  {
    var j := FirstIndex(s, p);
    var t := RemoveAt(s, k);
    if j < k {
      FirstMatchRemoveAfter(s, k, p);
      assert FirstIndex(t, p) == j && t[j] == s[j];
    } else {
      FirstMatchRemoveBefore(s, k, p);
      assert FirstIndex(t, p) == j - 1;
      assert j < |s| ==> t[j - 1] == s[j];
    }
  }

  /** Removing an element after the first match leaves that match where it was. */
  lemma FirstMatchRemoveAfter<T>(s: seq<T>, k: nat, p: T -> bool)
    requires FirstIndex(s, p) < k < |s|
    ensures FirstIndex(RemoveAt(s, k), p) == FirstIndex(s, p)
    ensures RemoveAt(s, k)[FirstIndex(s, p)] == s[FirstIndex(s, p)]
  {
    var j := FirstIndex(s, p);
    RemoveAfterMatch(s, k, j, p);
    FirstIndexUnique(RemoveAt(s, k), p, j);
  }

  /** Removing a non-matching element before the first match (or before the end, when there is none) shifts it down by one. */
  lemma FirstMatchRemoveBefore<T>(s: seq<T>, k: nat, p: T -> bool)
    requires k <= FirstIndex(s, p) && k < |s| && !p(s[k])
    ensures 0 < FirstIndex(s, p)
    ensures FirstIndex(RemoveAt(s, k), p) == FirstIndex(s, p) - 1
    ensures FirstIndex(s, p) < |s| ==> RemoveAt(s, k)[FirstIndex(s, p) - 1] == s[FirstIndex(s, p)]
  {
    var j := FirstIndex(s, p);
    RemoveBeforeMatch(s, k, j, p);
    FirstIndexUnique(RemoveAt(s, k), p, j - 1);
  }

  /** Replacing an element by one that agrees on `p` leaves the first match where it was. */
  lemma FirstIndexUpdate<T>(s: seq<T>, k: nat, x: T, p: T -> bool)
    requires k < |s| && p(x) == p(s[k])
    ensures FirstIndex(s[k := x], p) == FirstIndex(s, p)
  {
    var q := FirstIndex(s, p);
    var t := s[k := x];
    assert forall j :: 0 <= j < q ==> !p(t[j]) by {
      forall j | 0 <= j < q ensures !p(t[j]) {
        if j == k {
          assert !p(s[k]);
        }
      }
    }
    if q < |s| {
      assert p(t[q]);
    }
    FirstIndexUnique(t, p, q);
  }

  /** The sequence without its element at `k`. */
  function RemoveAt<T>(s: seq<T>, k: nat): (r: seq<T>)
    requires k < |s|
    ensures |r| == |s| - 1
  {
    s[..k] + s[k + 1..]
  }

  lemma RemoveAtIndex<T>(s: seq<T>, k: nat, j: nat)
    requires k < |s| && j < |s| - 1
    ensures RemoveAt(s, k)[j] == if j < k then s[j] else s[j + 1]
  {
  }

  /** Removing an element that does not satisfy `p` moves the first match back by one when it came after it. */
  lemma FirstIndexRemove<T>(s: seq<T>, k: nat, p: T -> bool)
    requires k < |s| && !p(s[k])
    ensures FirstIndex(RemoveAt(s, k), p) == if FirstIndex(s, p) < k then FirstIndex(s, p) else FirstIndex(s, p) - 1
  {
    if FirstIndex(s, p) < k {
      FirstMatchRemoveAfter(s, k, p);
    } else {
      FirstMatchRemoveBefore(s, k, p);
    }
  }

  /** Removing position `k` after a first match at `q` leaves that match and its prefix in place. */
  lemma RemoveAfterMatch<T>(s: seq<T>, k: nat, q: nat, p: T -> bool)
    requires q < k < |s|
    requires p(s[q])
    requires forall j :: 0 <= j < q ==> !p(s[j])
    ensures forall j :: 0 <= j < q ==> !p(RemoveAt(s, k)[j])
    ensures RemoveAt(s, k)[q] == s[q]
  {
    var t := RemoveAt(s, k);
    forall j | 0 <= j <= q ensures t[j] == s[j] {
      assert t[j] == s[..k][j];
    }
  }

  /** Removing position `k` before a first match at `q` shifts that match and its prefix down by one. */
  lemma RemoveBeforeMatch<T>(s: seq<T>, k: nat, q: nat, p: T -> bool)
    requires k < |s| && !p(s[k]) && k <= q <= |s|
    requires q < |s| ==> p(s[q])
    requires forall j :: 0 <= j < q ==> !p(s[j])
    ensures 0 < q
    ensures forall j :: 0 <= j < q - 1 ==> !p(RemoveAt(s, k)[j])
    ensures q - 1 < |s| - 1 ==> RemoveAt(s, k)[q - 1] == s[q]
  {
    var t := RemoveAt(s, k);
    forall j | 0 <= j < |s| - 1 ensures t[j] == if j < k then s[j] else s[j + 1] {
      if j < k {
        assert t[j] == s[..k][j];
      } else {
        assert t[j] == s[k + 1..][j - k];
      }
    }
  }

  /** The selection of `a + [x] + b`, and of `a + b`, piece by piece. */
  lemma FilterAround<T>(a: seq<T>, x: T, b: seq<T>, p: T -> bool)
    ensures Filter(a + [x] + b, p) == Filter(a, p) + (if p(x) then [x] else []) + Filter(b, p)
    ensures Filter(a + b, p) == Filter(a, p) + Filter(b, p)
  {
    FilterSnoc(a, x, p);
    FilterAppend(a + [x], b, p);
    FilterAppend(a, b, p);
  }

  /** Removing an element without `p`, or replacing it by another without `p`, leaves the selection unchanged. */
  lemma FilterOther<T>(s: seq<T>, k: nat, x: T, p: T -> bool)
    requires k < |s| && !p(s[k]) && !p(x)
    ensures Filter(RemoveAt(s, k), p) == Filter(s, p)
    ensures Filter(s[k := x], p) == Filter(s, p)
  {
    var a, b := s[..k], s[k + 1..];
    SplitAt(s, k);
    assert s[k := x] == a + [x] + b;
    FilterAround(a, s[k], b, p);
    FilterAround(a, x, b, p);
  }

  /** The first element with `p` heads the selection; removing it leaves the rest of the selection. */
  lemma FilterRemoveFirst<T>(s: seq<T>, p: T -> bool)
    requires FirstIndex(s, p) < |s|
    ensures Filter(s, p) == [s[FirstIndex(s, p)]] + Filter(RemoveAt(s, FirstIndex(s, p)), p)
  {
    var k := FirstIndex(s, p);
    var a, x, b := s[..k], s[k], s[k + 1..];
    assert Filter(a, p) == [] by {
      PrefixNoMatch(s, p);
    }
    assert s == a + [x] + b && RemoveAt(s, k) == a + b by {
      SplitAt(s, k);
    }
    FilterAroundNone(a, x, b, p);
  }

  /** Around a part with no element with `p`, the selection is that of the rest. */
  lemma FilterAroundNone<T>(a: seq<T>, x: T, b: seq<T>, p: T -> bool)
    requires Filter(a, p) == [] && p(x)
    ensures Filter(a + [x] + b, p) == [x] + Filter(b, p)
    ensures Filter(a + b, p) == Filter(b, p)
  {
    FilterAround(a, x, b, p);
    assert [] + [x] + Filter(b, p) == [x] + Filter(b, p);
  }

  lemma PrefixNoMatch<T>(s: seq<T>, p: T -> bool)
    ensures Filter(s[..FirstIndex(s, p)], p) == []
  {
    var a := s[..FirstIndex(s, p)];
    FilterEmpty(a, p);
  }

  /** `s` split around position `k`. */
  lemma SplitAt<T>(s: seq<T>, k: nat)
    requires k < |s|
    ensures s == s[..k] + [s[k]] + s[k + 1..]
    ensures RemoveAt(s, k) == s[..k] + s[k + 1..]
  {
  }

  /** The elements satisfying `p`, in order. */
  function Filter<T>(s: seq<T>, p: T -> bool): (r: seq<T>)
    ensures |r| <= |s|
  {
    if s == [] then [] else Filter(s[..|s| - 1], p) + (if p(s[|s| - 1]) then [s[|s| - 1]] else [])
  }

  /** The elements not satisfying `p`, in order. */
  function Reject<T>(s: seq<T>, p: T -> bool): (r: seq<T>)
    ensures |r| <= |s|
  {
    if s == [] then [] else Reject(s[..|s| - 1], p) + (if p(s[|s| - 1]) then [] else [s[|s| - 1]])
  }

  lemma FilterSnoc<T>(s: seq<T>, x: T, p: T -> bool)
    ensures Filter(s + [x], p) == Filter(s, p) + (if p(x) then [x] else [])
    ensures Reject(s + [x], p) == Reject(s, p) + (if p(x) then [] else [x])
  {
    assert (s + [x])[..|s|] == s;
  }

  lemma {:induction false} FilterAppend<T>(a: seq<T>, b: seq<T>, p: T -> bool)
    ensures Filter(a + b, p) == Filter(a, p) + Filter(b, p)
    ensures Reject(a + b, p) == Reject(a, p) + Reject(b, p)
    decreases |b|
  {
    if b == [] {
      assert a + b == a;
    } else {
      var b' := b[..|b| - 1];
      assert (a + b)[..|a + b| - 1] == a + b';
      FilterAppend(a, b', p);
    }
  }

  /** Filter keeps exactly the elements with `p`; Reject exactly those without it. */
  lemma {:induction false} FilterMembers<T>(s: seq<T>, p: T -> bool)
    ensures forall x :: x in Filter(s, p) <==> x in s && p(x)
    ensures forall x :: x in Reject(s, p) <==> x in s && !p(x)
    decreases |s|
  {
    if s != [] {
      var init := s[..|s| - 1];
      FilterMembers(init, p);
      assert s == init + [s[|s| - 1]];
    }
  }

  /** Nothing is left to select once rejected, and rejecting twice is rejecting once. */
  lemma {:induction false} RejectFilter<T>(s: seq<T>, p: T -> bool)
    ensures Filter(Reject(s, p), p) == []
    ensures Reject(Reject(s, p), p) == Reject(s, p)
    decreases |s|
  {
    if s != [] {
      var init := s[..|s| - 1];
      var x := s[|s| - 1];
      RejectFilter(init, p);
      FilterAppend(Reject(init, p), if p(x) then [] else [x], p);
      if !p(x) {
        assert [x][..0] == [];
      }
    }
  }

  /** Filtering finds nothing exactly when no element satisfies `p`. */
  lemma {:induction false} FilterEmpty<T>(s: seq<T>, p: T -> bool)
    ensures Filter(s, p) == [] <==> forall k :: 0 <= k < |s| ==> !p(s[k])
    decreases |s|
  {
    if s != [] {
      var init := s[..|s| - 1];
      FilterEmpty(init, p);
      assert forall k :: 0 <= k < |init| ==> init[k] == s[k];
    }
  }

  function Min(a: nat, b: nat): nat {
    if a <= b then a else b
  }

  /** Drops every element satisfying `p` that comes after the first `limit` of them. */
  function KeepFirst<T>(s: seq<T>, p: T -> bool, limit: nat): seq<T> {
    if s == [] then []
    else
      var init := s[..|s| - 1];
      var x := s[|s| - 1];
      KeepFirst(init, p, limit) + (if p(x) && |Filter(init, p)| >= limit then [] else [x])
  }

  /** After `KeepFirst` the elements with `p` are exactly the first `limit` of them, in order. */
  lemma {:induction false} KeepFirstFilter<T>(s: seq<T>, p: T -> bool, limit: nat)
    ensures Filter(KeepFirst(s, p, limit), p) == Filter(s, p)[..Min(limit, |Filter(s, p)|)]
    decreases |s|
  {
    if s != [] {
      var init := s[..|s| - 1];
      var x := s[|s| - 1];
      var k := KeepFirst(init, p, limit);
      var f := Filter(init, p);
      KeepFirstFilter(init, p, limit);
      assert Filter(k, p) == f[..Min(limit, |f|)];
      FilterSnoc(k, x, p);
      if !p(x) {
        assert KeepFirst(s, p, limit) == k + [x];
        assert Filter(s, p) == f;
      } else if |f| >= limit {
        assert KeepFirst(s, p, limit) == k + [];
        assert k + [] == k;
        assert Filter(s, p) == f + [x];
        assert (f + [x])[..limit] == f[..limit];
      } else {
        assert KeepFirst(s, p, limit) == k + [x];
        assert Filter(s, p) == f + [x];
        assert f[..|f|] == f;
        assert (f + [x])[..|f| + 1] == f + [x];
      }
    }
  }

  /** `KeepFirst` keeps every element without `p`, in order. */
  lemma {:induction false} KeepFirstReject<T>(s: seq<T>, p: T -> bool, limit: nat)
    ensures Reject(KeepFirst(s, p, limit), p) == Reject(s, p)
    decreases |s|
  {
    if s != [] {
      var init := s[..|s| - 1];
      var x := s[|s| - 1];
      var k := KeepFirst(init, p, limit);
      KeepFirstReject(init, p, limit);
      FilterSnoc(k, x, p);
      if p(x) && |Filter(init, p)| >= limit {
        assert KeepFirst(s, p, limit) == k + [];
        assert k + [] == k;
      } else {
        assert KeepFirst(s, p, limit) == k + [x];
      }
    }
  }

  /** One more element of `s`: the cap keeps it unless it has `p` and the cap is reached. */
  lemma KeepFirstPrefix<T>(s: seq<T>, p: T -> bool, limit: nat, i: nat)
    requires i < |s|
    ensures KeepFirst(s[..i + 1], p, limit) ==
              KeepFirst(s[..i], p, limit) + (if p(s[i]) && |Filter(s[..i], p)| >= limit then [] else [s[i]])
    ensures Filter(s[..i + 1], p) == Filter(s[..i], p) + (if p(s[i]) then [s[i]] else [])
  {
    assert s[..i + 1][..i] == s[..i];
  }

  /**
    The counting loop behind `KeepFirst`: walks the list once, counting the elements with
    `p` seen so far and dropping those that come after the first `limit`.
   */
  method KeepFirstLoop<T>(s: seq<T>, p: T -> bool, limit: nat) returns (kept: seq<T>)
    ensures kept == KeepFirst(s, p, limit)
  {
    kept := [];
    var count := 0;
    for i := 0 to |s|
      invariant kept == KeepFirst(s[..i], p, limit)
      invariant count == |Filter(s[..i], p)|
    {
      var x := s[i];
      KeepFirstPrefix(s, p, limit, i);
      if p(x) {
        if count < limit {
          kept := kept + [x];
        }
        count := count + 1;
      } else {
        kept := kept + [x];
      }
    }
    assert s[..|s|] == s;
  }

  /** A counting loop: the number of elements with `p`. */
  method CountLoop<T>(s: seq<T>, p: T -> bool) returns (count: nat)
    ensures count == |Filter(s, p)|
  {
    count := 0;
    for i := 0 to |s|
      invariant count == |Filter(s[..i], p)|
    {
      assert s[..i + 1][..i] == s[..i];
      if p(s[i]) {
        count := count + 1;
      }
    }
    assert s[..|s|] == s;
  }

  /** A list already within the cap is left as it is. */
  lemma {:induction false} KeepFirstUnderCap<T>(s: seq<T>, p: T -> bool, limit: nat)
    requires |Filter(s, p)| <= limit
    ensures KeepFirst(s, p, limit) == s
    decreases |s|
  {
    if s != [] {
      var init := s[..|s| - 1];
      var x := s[|s| - 1];
      FilterSnoc(init, x, p);
      assert s == init + [x];
      KeepFirstUnderCap(init, p, limit);
    }
  }
  /** Selecting by two predicates that agree everywhere gives the same elements. */
  lemma {:induction false} FilterCongruence<T>(s: seq<T>, p: T -> bool, q: T -> bool)
    requires forall x :: p(x) == q(x)
    ensures Filter(s, p) == Filter(s, q)
    ensures Reject(s, p) == Reject(s, q)
    decreases |s|
  {
    if s != [] {
      FilterCongruence(s[..|s| - 1], p, q);
    }
  }

  /** Rejecting elements with `p` leaves every element with a disjoint `q`. */
  lemma {:induction false} FilterOfReject<T>(s: seq<T>, p: T -> bool, q: T -> bool)
    requires forall x :: q(x) ==> !p(x)
    ensures Filter(Reject(s, p), q) == Filter(s, q)
    decreases |s|
  {
    if s != [] {
      var init := s[..|s| - 1];
      var x := s[|s| - 1];
      FilterOfReject(init, p, q);
      FilterAppend(Reject(init, p), if p(x) then [] else [x], q);
      if !p(x) {
        assert [x][..0] == [];
      }
    }
  }

  /** `f` applied to every element, in order. */
  function Map<T, U>(s: seq<T>, f: T -> U): (r: seq<U>)
    ensures |r| == |s|
    ensures forall i :: 0 <= i < |s| ==> r[i] == f(s[i])
  {
    if s == [] then [] else Map(s[..|s| - 1], f) + [f(s[|s| - 1])]
  }

  /** Mapping one more element appends its image. */
  lemma MapSnoc<T, U>(s: seq<T>, x: T, f: T -> U)
    ensures Map(s + [x], f) == Map(s, f) + [f(x)]
  {
    assert (s + [x])[..|s|] == s;
  }

  /** Selecting by `q` among the elements with `p`, where `q` implies `p`, is selecting by `q`. */
  lemma {:induction false} FilterNarrow<T>(s: seq<T>, p: T -> bool, q: T -> bool)
    requires forall x :: q(x) ==> p(x)
    ensures Filter(Filter(s, p), q) == Filter(s, q)
    decreases |s|
  {
    if s != [] {
      var init := s[..|s| - 1];
      var x := s[|s| - 1];
      FilterNarrow(init, p, q);
      FilterAppend(Filter(init, p), if p(x) then [x] else [], q);
      if p(x) {
        assert [x][..0] == [];
      }
    }
  }

  /** Capping the elements with `p` leaves every element with a disjoint `q`. */
  lemma KeepFirstOther<T>(s: seq<T>, p: T -> bool, q: T -> bool, limit: nat)
    requires forall x :: q(x) ==> !p(x)
    ensures Filter(KeepFirst(s, p, limit), q) == Filter(s, q)
  {
    FilterOfReject(KeepFirst(s, p, limit), p, q);
    KeepFirstReject(s, p, limit);
    FilterOfReject(s, p, q);
  }
  /** The keys of the elements of `s` selected by `sel`. */
  function KeySet<T, K>(s: seq<T>, sel: T -> bool, key: T -> K): set<K> {
    if s == [] then {}
    else KeySet(s[..|s| - 1], sel, key) + (if sel(s[|s| - 1]) then {key(s[|s| - 1])} else {})
  }

  /**
    Cleaning: every element not selected by `sel` is kept; a selected element is kept,
    transformed by `fix`, when it passes `ok`, and dropped otherwise.
   */
  function Clean<T>(s: seq<T>, sel: T -> bool, ok: T -> bool, fix: T -> T): seq<T> {
    if s == [] then []
    else
      var x := s[|s| - 1];
      Clean(s[..|s| - 1], sel, ok, fix) + (if !sel(x) then [x] else if ok(x) then [fix(x)] else [])
  }

  lemma CleanSnoc<T>(s: seq<T>, x: T, sel: T -> bool, ok: T -> bool, fix: T -> T)
    ensures Clean(s + [x], sel, ok, fix) == Clean(s, sel, ok, fix) + (if !sel(x) then [x] else if ok(x) then [fix(x)] else [])
  {
    assert (s + [x])[..|s|] == s;
  }

  /** Cleaning keeps every unselected element, in order. */
  lemma {:induction false} CleanReject<T(!new), K>(s: seq<T>, sel: T -> bool, ok: T -> bool, key: T -> K, fix: T -> T)
    requires Keeps(sel, ok, key, fix)
    ensures Reject(Clean(s, sel, ok, fix), sel) == Reject(s, sel)
    decreases |s|
  {
    if s != [] {
      var init := s[..|s| - 1];
      var x := s[|s| - 1];
      CleanReject(init, sel, ok, key, fix);
      FilterSnoc(init, x, sel);
      assert s == init + [x];
      if !sel(x) {
        FilterSnoc(Clean(init, sel, ok, fix), x, sel);
      } else if ok(x) {
        assert sel(fix(x));
        FilterSnoc(Clean(init, sel, ok, fix), fix(x), sel);
      } else {
        assert Clean(s, sel, ok, fix) == Clean(init, sel, ok, fix);
      }
    }
  }

  /** The selected elements after cleaning are the selected elements that pass `ok`, each transformed, in order. */
  lemma {:induction false} CleanFilter<T(!new), K>(s: seq<T>, sel: T -> bool, ok: T -> bool, both: T -> bool, key: T -> K, fix: T -> T)
    requires Keeps(sel, ok, key, fix)
    requires forall x :: both(x) == (sel(x) && ok(x))
    ensures Filter(Clean(s, sel, ok, fix), sel) == Map(Filter(s, both), fix)
    decreases |s|
  {
    if s != [] {
      var init := s[..|s| - 1];
      var x := s[|s| - 1];
      var bs := Filter(init, both);
      CleanFilter(init, sel, ok, both, key, fix);
      FilterSnoc(init, x, both);
      assert s == init + [x];
      if !sel(x) {
        FilterSnoc(Clean(init, sel, ok, fix), x, sel);
      } else if ok(x) {
        assert sel(fix(x));
        FilterSnoc(Clean(init, sel, ok, fix), fix(x), sel);
        assert Map(bs + [x], fix) == Map(bs, fix) + [fix(x)];
      } else {
        assert Clean(s, sel, ok, fix) == Clean(init, sel, ok, fix);
      }
    }
  }

  /** Cleaning twice is cleaning once when `fix` is idempotent and keeps `sel` and `ok`. */
  lemma {:induction false} CleanIdempotent<T(!new)>(s: seq<T>, sel: T -> bool, ok: T -> bool, fix: T -> T)
    requires Keeps(sel, ok, fix, fix)
    ensures Clean(Clean(s, sel, ok, fix), sel, ok, fix) == Clean(s, sel, ok, fix)
    decreases |s|
  {
    if s != [] {
      var init := s[..|s| - 1];
      var x := s[|s| - 1];
      CleanIdempotent(init, sel, ok, fix);
      if !sel(x) {
        CleanSnoc(Clean(init, sel, ok, fix), x, sel, ok, fix);
      } else if ok(x) {
        assert sel(fix(x)) && ok(fix(x)) && fix(fix(x)) == fix(x);
        CleanSnoc(Clean(init, sel, ok, fix), fix(x), sel, ok, fix);
      } else {
        assert Clean(s, sel, ok, fix) == Clean(init, sel, ok, fix);
      }
    }
  }

  /**
    First-key-wins de-duplication: every element not selected by `sel` is kept; a selected
    element is kept, transformed by `fix`, when it passes `ok` and its key is not among the
    keys of the selected elements kept before it; every other selected element is dropped.
   */
  function Dedup<T, K(==)>(s: seq<T>, sel: T -> bool, ok: T -> bool, key: T -> K, fix: T -> T): seq<T> {
    if s == [] then []
    else
      var kept := Dedup(s[..|s| - 1], sel, ok, key, fix);
      var x := s[|s| - 1];
      if !sel(x) then kept + [x]
      else if !ok(x) || key(x) in KeySet(kept, sel, key) then kept
      else kept + [fix(x)]
  }

  /** `fix` changes nothing that `Dedup` decides by. */
  ghost predicate Keeps<T(!new), K>(sel: T -> bool, ok: T -> bool, key: T -> K, fix: T -> T) {
    forall x {:trigger fix(x)} :: sel(fix(x)) == sel(x) && ok(fix(x)) == ok(x) && key(fix(x)) == key(x)
  }

  lemma KeySetSnoc<T, K>(s: seq<T>, x: T, sel: T -> bool, key: T -> K)
    ensures KeySet(s + [x], sel, key) == KeySet(s, sel, key) + (if sel(x) then {key(x)} else {})
  {
    assert (s + [x])[..|s|] == s;
  }

  lemma DedupSnoc<T, K>(s: seq<T>, x: T, sel: T -> bool, ok: T -> bool, key: T -> K, fix: T -> T)
    ensures Dedup(s + [x], sel, ok, key, fix) ==
              var kept := Dedup(s, sel, ok, key, fix);
              if !sel(x) then kept + [x]
              else if !ok(x) || key(x) in KeySet(kept, sel, key) then kept
              else kept + [fix(x)]
  {
    assert (s + [x])[..|s|] == s;
  }

  /** `Dedup` keeps every unselected element, in order. */
  lemma {:induction false} DedupReject<T(!new), K>(s: seq<T>, sel: T -> bool, ok: T -> bool, key: T -> K, fix: T -> T)
    requires Keeps(sel, ok, key, fix)
    ensures Reject(Dedup(s, sel, ok, key, fix), sel) == Reject(s, sel)
    decreases |s|
  {
    if s != [] {
      var init := s[..|s| - 1];
      var x := s[|s| - 1];
      var kept := Dedup(init, sel, ok, key, fix);
      assert s == init + [x];
      DedupReject(init, sel, ok, key, fix);
      DedupSnoc(init, x, sel, ok, key, fix);
      FilterSnoc(init, x, sel);
      FilterSnoc(kept, x, sel);
      FilterSnoc(kept, fix(x), sel);
    }
  }

  /** Both predicates. */
  function Both<T>(p: T -> bool, q: T -> bool): T -> bool {
    x => p(x) && q(x)
  }

  /** The keys of what `Dedup` keeps are exactly the keys of the selected elements that pass `ok`. */
  lemma {:induction false} DedupKeys<T(!new), K>(s: seq<T>, sel: T -> bool, ok: T -> bool, key: T -> K, fix: T -> T)
    requires Keeps(sel, ok, key, fix)
    ensures KeySet(Dedup(s, sel, ok, key, fix), sel, key) == KeySet(s, Both(sel, ok), key)
    decreases |s|
  {
    if s != [] {
      var init := s[..|s| - 1];
      var x := s[|s| - 1];
      var kept := Dedup(init, sel, ok, key, fix);
      DedupKeys(init, sel, ok, key, fix);
      assert KeySet(s, Both(sel, ok), key) == KeySet(init, Both(sel, ok), key) + (if sel(x) && ok(x) then {key(x)} else {});
      if !sel(x) || !ok(x) || key(x) in KeySet(kept, sel, key) {
        KeySetSnoc(kept, x, sel, key);
      } else {
        KeySetSnoc(kept, fix(x), sel, key);
      }
    }
  }

  /** A key is in the key set exactly when some selected element has it. */
  lemma {:induction false} KeySetMember<T, K>(s: seq<T>, sel: T -> bool, key: T -> K, k: K)
    ensures k in KeySet(s, sel, key) <==> exists j :: 0 <= j < |s| && sel(s[j]) && key(s[j]) == k
    decreases |s|
  {
    if s != [] {
      var init := s[..|s| - 1];
      KeySetMember(init, sel, key, k);
      if exists j :: 0 <= j < |s| && sel(s[j]) && key(s[j]) == k {
        var j :| 0 <= j < |s| && sel(s[j]) && key(s[j]) == k;
        if j < |init| {
          assert init[j] == s[j];
        }
      }
      if exists j :: 0 <= j < |init| && sel(init[j]) && key(init[j]) == k {
        var j :| 0 <= j < |init| && sel(init[j]) && key(init[j]) == k;
        assert init[j] == s[j];
      }
    }
  }

  /** `DedupKeys` for one key. */
  lemma DedupKeyOf<T(!new), K>(s: seq<T>, sel: T -> bool, ok: T -> bool, key: T -> K, fix: T -> T, k: K)
    requires Keeps(sel, ok, key, fix)
    ensures k in KeySet(Dedup(s, sel, ok, key, fix), sel, key) <==>
            exists j :: 0 <= j < |s| && sel(s[j]) && ok(s[j]) && key(s[j]) == k
  {
    DedupKeys(s, sel, ok, key, fix);
    KeySetMember(s, Both(sel, ok), key, k);
  }

  /** The key of every selected element is among the keys. */
  lemma {:induction false} KeySetCover<T, K>(s: seq<T>, sel: T -> bool, key: T -> K)
    ensures forall i :: 0 <= i < |Filter(s, sel)| ==> key(Filter(s, sel)[i]) in KeySet(s, sel, key)
    decreases |s|
  {
    if s != [] {
      var init := s[..|s| - 1];
      var x := s[|s| - 1];
      KeySetCover(init, sel, key);
      KeySetSnoc(init, x, sel, key);
      FilterSnoc(init, x, sel);
      assert s == init + [x];
    }
  }

  /** The selected elements `Dedup` keeps have pairwise different keys. */
  lemma {:induction false} DedupDistinct<T(!new), K>(s: seq<T>, sel: T -> bool, ok: T -> bool, key: T -> K, fix: T -> T)
    requires Keeps(sel, ok, key, fix)
    ensures forall i, j :: 0 <= i < j < |Filter(Dedup(s, sel, ok, key, fix), sel)| ==>
              key(Filter(Dedup(s, sel, ok, key, fix), sel)[i]) != key(Filter(Dedup(s, sel, ok, key, fix), sel)[j])
    decreases |s|
  {
    if s != [] {
      var init := s[..|s| - 1];
      var x := s[|s| - 1];
      var kept := Dedup(init, sel, ok, key, fix);
      var ps := Filter(kept, sel);
      assert s == init + [x];
      DedupDistinct(init, sel, ok, key, fix);
      DedupSnoc(init, x, sel, ok, key, fix);
      if sel(x) && ok(x) && key(x) !in KeySet(kept, sel, key) {
        var y := fix(x);
        FilterSnoc(kept, y, sel);
        KeySetCover(kept, sel, key);
        var qs := ps + [y];
        assert Filter(Dedup(s, sel, ok, key, fix), sel) == qs;
        forall i, j | 0 <= i < j < |qs| ensures key(qs[i]) != key(qs[j]) {
          if j == |ps| {
            assert key(qs[i]) in KeySet(kept, sel, key);
          } else {
            assert qs[i] == ps[i] && qs[j] == ps[j];
          }
        }
      } else {
        FilterSnoc(kept, x, sel);
      }
    }
  }

  /** Element `i` is the first selected element that passes `ok` with its key. */
  predicate FirstOkOfKey<T, K(==)>(s: seq<T>, i: nat, sel: T -> bool, ok: T -> bool, key: T -> K)
    requires i < |s|
  {
    && sel(s[i]) && ok(s[i])
    && forall j :: 0 <= j < i && sel(s[j]) && ok(s[j]) ==> key(s[j]) != key(s[i])
  }

  /** The last element is the first of its key exactly when `Dedup` of the others has not seen its key. */
  lemma FirstOkOfKeyLast<T(!new), K>(s: seq<T>, sel: T -> bool, ok: T -> bool, key: T -> K, fix: T -> T)
    requires Keeps(sel, ok, key, fix) && s != []
    ensures var init := s[..|s| - 1];
            var x := s[|s| - 1];
            FirstOkOfKey(s, |s| - 1, sel, ok, key)
            <==> sel(x) && ok(x) && key(x) !in KeySet(Dedup(init, sel, ok, key, fix), sel, key)
  {
    var init := s[..|s| - 1];
    var x := s[|s| - 1];
    var seen := KeySet(Dedup(init, sel, ok, key, fix), sel, key);
    DedupKeyOf(init, sel, ok, key, fix, key(x));
    assert forall j :: 0 <= j < |init| ==> s[j] == init[j];
    if sel(x) && ok(x) {
      if key(x) in seen {
        var j :| 0 <= j < |init| && sel(init[j]) && ok(init[j]) && key(init[j]) == key(x);
        assert !FirstOkOfKey(s, |s| - 1, sel, ok, key);
      }
    }
  }

  /** The first selected element of every key that passes `ok` is kept, transformed by `fix`. */
  lemma {:induction false} DedupFirstKept<T(!new), K>(s: seq<T>, sel: T -> bool, ok: T -> bool, key: T -> K, fix: T -> T)
    requires Keeps(sel, ok, key, fix)
    ensures forall i :: 0 <= i < |s| && FirstOkOfKey(s, i, sel, ok, key) ==> fix(s[i]) in Dedup(s, sel, ok, key, fix)
    decreases |s|
  {
    if s != [] {
      var init := s[..|s| - 1];
      var x := s[|s| - 1];
      assert s == init + [x];
      DedupFirstKept(init, sel, ok, key, fix);
      DedupSnoc(init, x, sel, ok, key, fix);
      FirstOkOfKeyLast(s, sel, ok, key, fix);
      forall i | 0 <= i < |init| && FirstOkOfKey(s, i, sel, ok, key)
        ensures fix(s[i]) in Dedup(s, sel, ok, key, fix)
      {
        assert forall j :: 0 <= j <= i ==> s[j] == init[j];
        assert FirstOkOfKey(init, i, sel, ok, key);
      }
    }
  }

  /** Every selected element `Dedup` keeps is the first of its key, transformed by `fix`. */
  lemma {:induction false} DedupKeptFirst<T(!new), K>(s: seq<T>, sel: T -> bool, ok: T -> bool, key: T -> K, fix: T -> T)
    requires Keeps(sel, ok, key, fix)
    ensures forall y :: y in Dedup(s, sel, ok, key, fix) && sel(y) ==>
              exists i :: 0 <= i < |s| && FirstOkOfKey(s, i, sel, ok, key) && y == fix(s[i])
    decreases |s|
  {
    if s != [] {
      var init := s[..|s| - 1];
      var x := s[|s| - 1];
      assert s == init + [x];
      DedupKeptFirst(init, sel, ok, key, fix);
      DedupSnoc(init, x, sel, ok, key, fix);
      FirstOkOfKeyLast(s, sel, ok, key, fix);
      forall y | y in Dedup(init, sel, ok, key, fix) && sel(y)
        ensures exists i :: 0 <= i < |s| && FirstOkOfKey(s, i, sel, ok, key) && y == fix(s[i])
      {
        var i :| 0 <= i < |init| && FirstOkOfKey(init, i, sel, ok, key) && y == fix(init[i]);
        assert forall j :: 0 <= j <= i ==> s[j] == init[j];
        assert FirstOkOfKey(s, i, sel, ok, key);
      }
    }
  }

  /**
    The selected elements that are each the first of their key to pass `ok`, transformed by
    `fix`, in the order in which they occur in `s`.
   */
  function FirstOfKeys<T, K(==)>(s: seq<T>, sel: T -> bool, ok: T -> bool, key: T -> K, fix: T -> T): seq<T> {
    if s == [] then []
    else FirstOfKeys(s[..|s| - 1], sel, ok, key, fix) + (if FirstOkOfKey(s, |s| - 1, sel, ok, key) then [fix(s[|s| - 1])] else [])
  }

  /**
    The selected elements `Dedup` keeps are exactly the first selected element of every key
    that passes `ok`, transformed by `fix`, in their original order.
   */
  lemma {:induction false} DedupFilterOrder<T(!new), K>(s: seq<T>, sel: T -> bool, ok: T -> bool, key: T -> K, fix: T -> T)
    requires Keeps(sel, ok, key, fix)
    ensures Filter(Dedup(s, sel, ok, key, fix), sel) == FirstOfKeys(s, sel, ok, key, fix)
    decreases |s|
  {
    if s != [] {
      var init := s[..|s| - 1];
      var x := s[|s| - 1];
      var kept := Dedup(init, sel, ok, key, fix);
      assert s == init + [x];
      DedupFilterOrder(init, sel, ok, key, fix);
      DedupSnoc(init, x, sel, ok, key, fix);
      FirstOkOfKeyLast(s, sel, ok, key, fix);
      if !sel(x) {
        FilterSnoc(kept, x, sel);
      } else if ok(x) && key(x) !in KeySet(kept, sel, key) {
        assert sel(fix(x));
        FilterSnoc(kept, fix(x), sel);
      }
    }
  }
}
