/**
 * The four JavaScript array methods the portal relies on (`some`, `find`,
 * `filter`, `map`), as recursive functions over sequences, each with the
 * contract that characterises it independently of its recursion.
 */
module Seqs {
  import opened Wrappers

  /** `s.some(p)`: true exactly when some element satisfies `p`. */
  function Any<T>(s: seq<T>, p: T -> bool): (r: bool)
    ensures r <==> exists i :: 0 <= i < |s| && p(s[i])
  {
    if s == [] then false
    else if p(s[0]) then true
    else
      var rest := Any(s[1..], p);
      assert forall i :: 1 <= i < |s| ==> s[i] == s[1..][i - 1];
      rest
  }

  /** `s.find(p)`: the first element satisfying `p`, or `None` when there is none. */
  function Find<T>(s: seq<T>, p: T -> bool): (r: Option<T>)
    ensures r.None? <==> forall i :: 0 <= i < |s| ==> !p(s[i])
    ensures r.Some? ==>
      exists i :: 0 <= i < |s| && s[i] == r.value && p(s[i]) && forall j :: 0 <= j < i ==> !p(s[j])
  {
    if s == [] then None
    else if p(s[0]) then Some(s[0])
    else
      var rest := Find(s[1..], p);
      assert forall i :: 1 <= i < |s| ==> s[i] == s[1..][i - 1];
      rest
  }

  /** `s.filter(p)`: the elements satisfying `p`, in their original order. */
  function Filter<T>(s: seq<T>, p: T -> bool): (r: seq<T>)
    ensures |r| <= |s|
    ensures forall k :: 0 <= k < |r| ==> p(r[k])
  {
    if s == [] then []
    else
      var rest := Filter(s[1..], p);
      assert forall i :: 1 <= i < |s| ==> s[i] == s[1..][i - 1];
      if p(s[0]) then [s[0]] + rest else rest
  }

  /** `s.map(f)`: the image of every element, position by position. */
  function Map<T, U>(s: seq<T>, f: T -> U): (r: seq<U>)
    ensures |r| == |s|
    ensures forall i :: 0 <= i < |s| ==> r[i] == f(s[i])
  {
    if s == [] then []
    else
      var rest := Map(s[1..], f);
      assert forall i :: 1 <= i < |s| ==> s[i] == s[1..][i - 1];
      [f(s[0])] + rest
  }

  predicate StrictlyIncreasing(ix: seq<int>)
  {
    forall k, l :: 0 <= k < l < |ix| ==> ix[k] < ix[l]
  }

  /** Filtering distributes over concatenation. */
  lemma {:induction false} FilterAppend<T>(a: seq<T>, b: seq<T>, p: T -> bool)
    ensures Filter(a + b, p) == Filter(a, p) + Filter(b, p)
  {
    if a == [] {
      assert a + b == b;
    } else {
      assert (a + b)[0] == a[0];
      assert (a + b)[1..] == a[1..] + b;
      FilterAppend(a[1..], b, p);
      var head := if p(a[0]) then [a[0]] else [];
      assert Filter(a + b, p) == head + Filter(a[1..] + b, p);
      assert Filter(a, p) == head + Filter(a[1..], p);
    }
  }

  /**
   * Filter keeps exactly the satisfying elements and keeps them in order:
   * its result is `s` read at a strictly increasing sequence of indices,
   * and those indices are precisely the positions where `p` holds.
   */
  lemma {:induction false} FilterSelects<T>(s: seq<T>, p: T -> bool) returns (ix: seq<int>)
    ensures Selection(s, p, ix)
  {
    if s == [] {
      ix := [];
    } else {
      var init := s[..|s| - 1];
      var before := FilterSelects(init, p);
      ix := ExtendSelection(init, s[|s| - 1], p, before);
      assert init + [s[|s| - 1]] == s;
    }
  }

  /**
   * `ix` lists, in increasing order, exactly the positions of `s` where `p`
   * holds, and `Filter(s, p)` is `s` read at those positions.
   */
  ghost predicate Selection<T>(s: seq<T>, p: T -> bool, ix: seq<int>)
  {
    && StrictlyIncreasing(ix)
    && (forall k :: 0 <= k < |ix| ==> 0 <= ix[k] < |s| && p(s[ix[k]]))
    && (forall i :: 0 <= i < |s| && p(s[i]) ==> exists k :: 0 <= k < |ix| && ix[k] == i)
    && |ix| == |Filter(s, p)|
    && (forall k :: 0 <= k < |ix| ==> Filter(s, p)[k] == s[ix[k]])
  }

  /** One more element at the end adds its position to the selection when it is kept. */
  lemma ExtendSelection<T>(init: seq<T>, x: T, p: T -> bool, before: seq<int>) returns (ix: seq<int>)
    requires Selection(init, p, before)
    ensures Selection(init + [x], p, ix)
    ensures ix == if p(x) then before + [|init|] else before
  {
    var s := init + [x];
    var n := |init|;
    FilterAppend(init, [x], p);
    assert forall i :: 0 <= i < n ==> s[i] == init[i];
    assert Filter([x], p) == if p(x) then [x] else [];
    if p(x) {
      ix := before + [n];
      forall i | 0 <= i < |s| && p(s[i]) ensures exists k :: 0 <= k < |ix| && ix[k] == i {
        if i == n {
          assert ix[|before|] == i;
        } else {
          var k :| 0 <= k < |before| && before[k] == i;
          assert ix[k] == i;
        }
      }
    } else {
      ix := before;
    }
  }
}
