/** Helpers on sequences of strings (amenities, booking conditions, image links,
    hotel ids) shared by the mergers and the orchestrator: duplicate-free
    sequences and the "append if not already present" union of the mergers. */
module Sequences {

  /** No element occurs twice. */
  ghost predicate NoDup<T>(s: seq<T>) {
    forall i, j :: 0 <= i < j < |s| ==> s[i] != s[j]
  }

  /** Appends to `acc`, in order, every element of `xs` that is not present yet.
      Defined on the last element so that a left-to-right loop can follow it. */
  function AppendNew(acc: seq<string>, xs: seq<string>): seq<string>
    decreases |xs|
  {
    if xs == [] then acc
    else
      var prev := AppendNew(acc, xs[..|xs| - 1]);
      if xs[|xs| - 1] in prev then prev else prev + [xs[|xs| - 1]]
  }

  /** The distinct elements of `xs` in order of first occurrence. */
  function Dedup(xs: seq<string>): seq<string> {
    AppendNew([], xs)
  }

  /** Concatenation of a sequence of sequences. */
  function Flatten<T>(xss: seq<seq<T>>): seq<T>
    decreases |xss|
  {
    if xss == [] then [] else Flatten(xss[..|xss| - 1]) + xss[|xss| - 1]
  }

  lemma FlattenAppend<T>(xss: seq<seq<T>>, ys: seq<T>)
    ensures Flatten(xss + [ys]) == Flatten(xss) + ys
  {
    assert (xss + [ys])[..|xss|] == xss;
  }

  /** An element of the concatenation is an element of one of the parts. */
  lemma {:induction false} FlattenMember(xss: seq<seq<string>>)
    ensures forall x :: x in Flatten(xss) <==> exists i :: 0 <= i < |xss| && x in xss[i]
    decreases |xss|
  {
    if xss != [] {
      var n := |xss| - 1;
      FlattenMember(xss[..n]);
      assert forall i :: 0 <= i < n ==> xss[..n][i] == xss[i];
      forall x | x in Flatten(xss) ensures exists i :: 0 <= i < |xss| && x in xss[i] {
        if x !in xss[n] {
          assert x in Flatten(xss[..n]);
          var i :| 0 <= i < n && x in xss[..n][i];
          assert x in xss[i];
        }
      }
    }
  }

  /** The union keeps `acc` as a prefix, adds exactly the elements of `xs`,
      and stays duplicate-free. */
  lemma {:induction false} AppendNewUnion(acc: seq<string>, xs: seq<string>)
    requires NoDup(acc)
    ensures NoDup(AppendNew(acc, xs))
    ensures |acc| <= |AppendNew(acc, xs)| && AppendNew(acc, xs)[..|acc|] == acc
    ensures forall x :: x in AppendNew(acc, xs) <==> x in acc || x in xs
    decreases |xs|
  {
    if xs != [] {
      var init := xs[..|xs| - 1];
      AppendNewUnion(acc, init);
      var prev := AppendNew(acc, init);
      assert xs == init + [xs[|xs| - 1]];
      if xs[|xs| - 1] !in prev {
        assert (prev + [xs[|xs| - 1]])[..|acc|] == prev[..|acc|];
      }
    }
  }

  /** Processing two lists one after the other is processing their concatenation. */
  lemma {:induction false} AppendNewConcat(acc: seq<string>, xs: seq<string>, ys: seq<string>)
    ensures AppendNew(AppendNew(acc, xs), ys) == AppendNew(acc, xs + ys)
    decreases |ys|
  {
    if ys == [] {
      assert xs + ys == xs;
    } else {
      var init := ys[..|ys| - 1];
      AppendNewConcat(acc, xs, init);
      assert (xs + ys)[..|xs + ys| - 1] == xs + init;
      assert (xs + ys)[|xs + ys| - 1] == ys[|ys| - 1];
    }
  }

  /** Adding elements that are already present changes nothing; in particular
      a duplicate-free list is its own deduplication. */
  lemma {:induction false} AppendNewPresent(acc: seq<string>, xs: seq<string>)
    requires forall x :: x in xs ==> x in acc
    ensures AppendNew(acc, xs) == acc
    decreases |xs|
  {
    if xs != [] {
      AppendNewPresent(acc, xs[..|xs| - 1]);
      assert xs[|xs| - 1] in xs;
    }
  }

  lemma {:induction false} DedupOfNoDup(xs: seq<string>)
    requires NoDup(xs)
    ensures Dedup(xs) == xs
    decreases |xs|
  {
    if xs != [] {
      var init := xs[..|xs| - 1];
      assert NoDup(init);
      DedupOfNoDup(init);
      assert xs[|xs| - 1] !in init;
      assert init + [xs[|xs| - 1]] == xs;
    }
  }

  /** Deduplication keeps every element exactly once, in order of first
      occurrence: each occurrence in `xs` of a later result element comes after
      some occurrence of every earlier result element. */
  lemma {:induction false} DedupFirstSeen(xs: seq<string>)
    ensures NoDup(Dedup(xs))
    ensures forall x :: x in Dedup(xs) <==> x in xs
    ensures forall i, j, q :: 0 <= i < j < |Dedup(xs)| && 0 <= q < |xs| && xs[q] == Dedup(xs)[j] ==> Dedup(xs)[i] in xs[..q]
    decreases |xs|
  {
    AppendNewUnion([], xs);
    if xs != [] {
      var n := |xs| - 1;
      var init := xs[..n];
      DedupFirstSeen(init);
      var prev := Dedup(init);
      var r := Dedup(xs);
      assert forall x :: x in prev ==> x in init;
      assert xs == init + [xs[n]];
      assert r == if xs[n] in prev then prev else prev + [xs[n]];
      forall i, j, q | 0 <= i < j < |r| && 0 <= q < |xs| && xs[q] == r[j]
        ensures r[i] in xs[..q]
      {
        if q == n {
          assert i < |prev| && r[i] == prev[i];
          assert prev[i] in prev;
          assert prev[i] in init;
          assert xs[..q] == init;
          assert r[i] in xs[..q];
        } else {
          assert xs[..q] == init[..q];
          assert xs[q] == init[q] && init[q] in init;
          assert r[j] in prev;
          assert j < |prev|;
          assert r[i] == prev[i] && r[j] == prev[j];
          assert prev[i] in init[..q];
        }
      }
    }
  }

  /** The values of a dictionary whose keys, in insertion order, are `keys`. */
  function ValuesIn<V>(keys: seq<string>, m: map<string, V>): (r: seq<V>)
    ensures |r| <= |keys|
    ensures (forall k :: k in keys ==> k in m) ==>
      |r| == |keys| && forall i :: 0 <= i < |r| ==> r[i] == m[keys[i]]
    decreases |keys|
  {
    if keys == [] then []
    else
      var n := |keys| - 1;
      ValuesIn(keys[..n], m) + (if keys[n] in m then [m[keys[n]]] else [])
  }
}
