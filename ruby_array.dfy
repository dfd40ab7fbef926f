/** The `Array` operations of Ruby that the matchers rely on. */
module RubyArray {
  import opened Wrappers

  /** No element occurs twice. */
  predicate Distinct<T(==)>(s: seq<T>) {
    forall i, j :: 0 <= i < j < |s| ==> s[i] != s[j]
  }

  /**
   * `s.uniq`: every element of `s` once and nothing else. The body keeps
   * first occurrences in order, as Ruby does; the contract states only
   * membership and distinctness, which is all `uniq.size` depends on.
   */
  function Uniq<T(==)>(s: seq<T>): (r: seq<T>)
    ensures |r| <= |s|
    ensures forall k :: 0 <= k < |s| ==> s[k] in r
    ensures forall k :: 0 <= k < |r| ==> r[k] in s
    ensures Distinct(r)
  {
    if s == [] then []
    else
      var init := s[..|s| - 1];
      var u := Uniq(init);
      if s[|s| - 1] in init then u else u + [s[|s| - 1]]
  }

  /** `actual.uniq.size == actual.size` holds exactly when no element is repeated. */
  lemma {:induction false} UniqSizeIffDistinct<T>(s: seq<T>)
    ensures |Uniq(s)| == |s| <==> Distinct(s)
  {
    if s != [] {
      var init, last := s[..|s| - 1], s[|s| - 1];
      UniqSizeIffDistinct(init);
      if last in init {
        var i :| 0 <= i < |init| && init[i] == last;
        assert s[i] == s[|s| - 1];
      } else if Distinct(init) {
        forall i, j | 0 <= i < j < |s| ensures s[i] != s[j] {
          if j < |s| - 1 { assert s[i] == init[i] && s[j] == init[j]; }
          else { assert s[i] in init; }
        }
      } else {
        var i, j :| 0 <= i < j < |init| && init[i] == init[j];
        assert s[i] == s[j];
      }
    }
  }

  /** Distinctness is a property of the multiset of elements alone. */
  lemma {:induction false} DistinctIffSingleCounts<T>(s: seq<T>)
    ensures Distinct(s) <==> forall x :: multiset(s)[x] <= 1
  {
    if s != [] {
      var init, last := s[..|s| - 1], s[|s| - 1];
      assert s == init + [last];
      assert multiset(s) == multiset(init) + multiset{last};
      DistinctIffSingleCounts(init);
      if Distinct(s) {
        assert Distinct(init) by {
          forall i, j | 0 <= i < j < |init| ensures init[i] != init[j] {
            assert init[i] == s[i] && init[j] == s[j];
          }
        }
        assert forall i :: 0 <= i < |init| ==> init[i] == s[i] != s[|s| - 1];
        assert multiset(init)[last] == 0;
      } else {
        var i, j :| 0 <= i < j < |s| && s[i] == s[j];
        if j < |s| - 1 {
          assert init[i] == init[j];
          assert !Distinct(init);
          var x :| multiset(init)[x] > 1;
          assert multiset(s)[x] > 1;
        } else {
          assert s[i] in init;
          assert multiset(init)[last] >= 1;
          assert multiset(s)[last] > 1;
        }
      }
    }
  }

  /** Reordering the elements does not change whether they are distinct. */
  lemma DistinctPermutation<T>(a: seq<T>, b: seq<T>)
    requires multiset(a) == multiset(b)
    ensures Distinct(a) <==> Distinct(b)
  {
    DistinctIffSingleCounts(a);
    DistinctIffSingleCounts(b);
  }

  /**
   * Element `k` of the left-hand side of a multiple assignment
   * `x0, x1, ... = s`: `nil` when `s` is too short.
   */
  function Nth<T>(s: seq<T>, k: nat): (r: Option<T>)
    ensures r.Some? <==> k < |s|
    ensures r.Some? ==> r.value == s[k]
  {
    if k < |s| then Some(s[k]) else None
  }
}
