/** The JavaScript array built-ins the source relies on (`filter`, `findIndex`,
    `some`, `map`) and the keep-the-first-of-each-key loop, as functions over
    sequences with their meaning stated. */
module Seqs {

  /** `sub` is `xs` with some elements deleted, the rest kept in order. */
  predicate IsSubsequence<T(==)>(sub: seq<T>, xs: seq<T>)
    decreases |xs|
  {
    if sub == [] then true
    else if xs == [] then false
    else (sub[0] == xs[0] && IsSubsequence(sub[1..], xs[1..])) || IsSubsequence(sub, xs[1..])
  }

  /** No element occurs twice. */
  predicate NoDuplicates<T(==)>(xs: seq<T>) {
    forall i, j :: 0 <= i < j < |xs| ==> xs[i] != xs[j]
  }

  /** `Array.prototype.filter`: the elements that satisfy `keep`, in their
      order, each as often as it occurs in `xs`. */
  function Filter<T(==,!new)>(xs: seq<T>, keep: T -> bool): (r: seq<T>)
    ensures |r| <= |xs|
    ensures forall i :: 0 <= i < |r| ==> r[i] in xs && keep(r[i])
    ensures forall j :: 0 <= j < |xs| && keep(xs[j]) ==> xs[j] in r
    ensures IsSubsequence(r, xs)
    ensures forall x :: multiset(r)[x] == if keep(x) then multiset(xs)[x] else 0
  {
    if xs == [] then []
    else
      var rest := Filter(xs[1..], keep);
      FilterCons(xs[0], xs[1..], keep, rest);
      assert [xs[0]] + xs[1..] == xs;
      if keep(xs[0]) then [xs[0]] + rest else rest
  }

  /** The five facts `Filter` promises, gathered so that one step of the
      recursion can be proved apart from the recursion itself. */
  ghost predicate FiltersTo<T(!new)>(xs: seq<T>, keep: T -> bool, r: seq<T>)
  {
    && |r| <= |xs|
    && (forall i :: 0 <= i < |r| ==> r[i] in xs && keep(r[i]))
    && (forall j :: 0 <= j < |xs| && keep(xs[j]) ==> xs[j] in r)
    && IsSubsequence(r, xs)
    && (forall x :: multiset(r)[x] == if keep(x) then multiset(xs)[x] else 0)
  }

  /** Putting `x` in front of the input puts it in front of the output
      exactly when `keep(x)`. */
  lemma FilterCons<T(!new)>(x: T, tail: seq<T>, keep: T -> bool, rest: seq<T>)
    requires FiltersTo(tail, keep, rest)
    ensures FiltersTo([x] + tail, keep, if keep(x) then [x] + rest else rest)
  {
    ConsOrder(x, tail, rest);
    ConsCounts(x, tail, keep, rest);
    ConsMembers(x, tail, keep, rest);
  }

  /** One more element in front: every output element still comes from the
      input and passes `keep`, and every input element that passes is still
      in the output. */
  lemma ConsMembers<T>(x: T, tail: seq<T>, keep: T -> bool, rest: seq<T>)
    requires forall i :: 0 <= i < |rest| ==> rest[i] in tail && keep(rest[i])
    requires forall j :: 0 <= j < |tail| && keep(tail[j]) ==> tail[j] in rest
    ensures var xs, r := [x] + tail, if keep(x) then [x] + rest else rest;
      && (forall i :: 0 <= i < |r| ==> r[i] in xs && keep(r[i]))
      && (forall j :: 0 <= j < |xs| && keep(xs[j]) ==> xs[j] in r)
  {
    var xs := [x] + tail;
    assert forall j :: 1 <= j < |xs| ==> xs[j] == tail[j - 1];
  }

  /** One more element in front keeps a subsequence one, whether or not it
      is kept. */
  lemma ConsOrder<T>(x: T, tail: seq<T>, rest: seq<T>)
    requires IsSubsequence(rest, tail)
    ensures IsSubsequence(rest, [x] + tail) && IsSubsequence([x] + rest, [x] + tail)
  {
    assert ([x] + tail)[1..] == tail;
    assert ([x] + rest)[1..] == rest;
  }

  /** One more element in front adds one to its own count on both sides
      when it is kept, and leaves the output's counts alone when it is not. */
  lemma ConsCounts<T(!new)>(x: T, tail: seq<T>, keep: T -> bool, rest: seq<T>)
    requires forall y :: multiset(rest)[y] == if keep(y) then multiset(tail)[y] else 0
    ensures var r := if keep(x) then [x] + rest else rest;
      forall y :: multiset(r)[y] == if keep(y) then multiset([x] + tail)[y] else 0
  {
    assert multiset([x] + tail) == multiset{x} + multiset(tail);
    assert multiset([x] + rest) == multiset{x} + multiset(rest);
  }

  /** A filter that rejects nothing returns its input. */
  lemma {:induction false} FilterKeepsAll<T(!new)>(xs: seq<T>, keep: T -> bool)
    requires forall j :: 0 <= j < |xs| ==> keep(xs[j])
    ensures Filter(xs, keep) == xs
  {
    if xs != [] {
      FilterKeepsAll(xs[1..], keep);
    }
  }

  /** `Array.prototype.findIndex`: the first index whose element satisfies `p`,
      or -1 when there is none. */
  function FindIndex<T>(xs: seq<T>, p: T -> bool): (k: int)
    ensures -1 <= k < |xs|
    ensures k == -1 <==> forall j :: 0 <= j < |xs| ==> !p(xs[j])
    ensures 0 <= k ==> p(xs[k]) && forall j :: 0 <= j < k ==> !p(xs[j])
  {
    if xs == [] then -1
    else if p(xs[0]) then 0
    else
      var k := FindIndex(xs[1..], p);
      if k == -1 then -1 else k + 1
  }

  /** `i = xs.findIndex(p); if (i !== -1) xs[i] = x;`: the first element
      satisfying `p` is overwritten; with no such element nothing changes. */
  function ReplaceFirst<T>(xs: seq<T>, p: T -> bool, x: T): (r: seq<T>)
    ensures |r| == |xs|
    ensures (forall j :: 0 <= j < |xs| ==> !p(xs[j])) ==> r == xs
    ensures forall k :: 0 <= k < |xs| && p(xs[k]) && (forall j :: 0 <= j < k ==> !p(xs[j])) ==>
      r == xs[k := x]
  {
    var k := FindIndex(xs, p);
    if k == -1 then xs else xs[k := x]
  }

  /** `Array.prototype.some`. */
  function Any<T>(xs: seq<T>, p: T -> bool): (b: bool)
    ensures b <==> exists j :: 0 <= j < |xs| && p(xs[j])
  {
    if xs == [] then false
    else p(xs[0]) || Any(xs[1..], p)
  }

  /** `xs.map(key)`. */
  function Keys<T, K>(xs: seq<T>, key: T -> K): (ks: seq<K>)
    ensures |ks| == |xs|
    ensures forall i :: 0 <= i < |xs| ==> ks[i] == key(xs[i])
  {
    seq(|xs|, i requires 0 <= i < |xs| => key(xs[i]))
  }

  /** A subsequence stays one when an element is added at the end of the
      sequence, whether or not the subsequence takes it too. */
  lemma {:induction false} SubsequenceSnoc<T>(sub: seq<T>, xs: seq<T>, x: T)
    requires IsSubsequence(sub, xs)
    ensures IsSubsequence(sub, xs + [x]) && IsSubsequence(sub + [x], xs + [x])
    decreases |xs|
  {
    if xs == [] {
      assert sub == [];
      assert ([] + [x])[1..] == [];
    } else {
      assert (xs + [x])[0] == xs[0] && (xs + [x])[1..] == xs[1..] + [x];
      if sub == [] {
        SubsequenceSnoc(sub, xs[1..], x);
        assert sub + [x] == [x];
      } else {
        assert (sub + [x])[0] == sub[0] && (sub + [x])[1..] == sub[1..] + [x];
        if sub[0] == xs[0] && IsSubsequence(sub[1..], xs[1..]) {
          SubsequenceSnoc(sub[1..], xs[1..], x);
        } else {
          SubsequenceSnoc(sub, xs[1..], x);
        }
      }
    }
  }

  /** What a `forEach` over `xs` leaves when it keeps an element only if no
      element with the same key was kept before it: the first element of
      each key, in the order the keys first appear. */
  function FirstOccurrences<T, K(==)>(xs: seq<T>, key: T -> K): seq<T> {
    if xs == [] then []
    else
      var prev := FirstOccurrences(xs[..|xs| - 1], key);
      if key(xs[|xs| - 1]) in Keys(prev, key) then prev else prev + [xs[|xs| - 1]]
  }

  /** The kept elements appear in the order of `xs`. */
  lemma {:induction false} FirstOccurrencesInOrder<T, K>(xs: seq<T>, key: T -> K)
    ensures IsSubsequence(FirstOccurrences(xs, key), xs)
  {
    if xs != [] {
      var init, last := xs[..|xs| - 1], xs[|xs| - 1];
      FirstOccurrencesInOrder(init, key);
      SubsequenceSnoc(FirstOccurrences(init, key), init, last);
      assert init + [last] == xs;
    }
  }

  /** The first occurrences have distinct keys, cover every key of `xs`, and
      each of them is an element of `xs` preceded by none with its key. */
  lemma {:induction false} FirstOccurrencesSpec<T, K>(xs: seq<T>, key: T -> K)
    ensures NoDuplicates(Keys(FirstOccurrences(xs, key), key))
    ensures forall k :: 0 <= k < |xs| ==> key(xs[k]) in Keys(FirstOccurrences(xs, key), key)
    ensures forall i :: 0 <= i < |FirstOccurrences(xs, key)| ==>
      exists k :: 0 <= k < |xs| && xs[k] == FirstOccurrences(xs, key)[i]
        && forall j :: 0 <= j < k ==> key(xs[j]) != key(xs[k])
  {
    if xs != [] {
      var n := |xs| - 1;
      var init, last := xs[..n], xs[n];
      var prev := FirstOccurrences(init, key);
      var r := FirstOccurrences(xs, key);
      FirstOccurrencesSpec(init, key);
      assert forall j :: 0 <= j < n ==> init[j] == xs[j];
      forall i | 0 <= i < |prev|
        ensures exists k :: 0 <= k < |xs| && xs[k] == prev[i] && forall j :: 0 <= j < k ==> key(xs[j]) != key(xs[k])
      {
        var k :| 0 <= k < |init| && init[k] == prev[i] && forall j :: 0 <= j < k ==> key(init[j]) != key(init[k]);
        assert xs[k] == prev[i];
      }
      if key(last) !in Keys(prev, key) {
        assert r == prev + [last];
        assert Keys(r, key) == Keys(prev, key) + [key(last)];
        assert forall j :: 0 <= j < n ==> key(xs[j]) in Keys(prev, key);
        assert r[|prev|] == xs[n];
      }
    }
  }
}
