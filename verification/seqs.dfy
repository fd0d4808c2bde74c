/** Concatenation of a sequence of sequences, used to flatten per-section lists. */
module Seqs {
  import opened Wrappers

  function Flatten<T>(ls: seq<seq<T>>): seq<T>
  {
    if |ls| == 0 then [] else ls[0] + Flatten(ls[1..])
  }

  lemma {:induction false} FlattenAppend<T>(a: seq<seq<T>>, b: seq<seq<T>>)
    ensures Flatten(a + b) == Flatten(a) + Flatten(b)
  {
    if |a| == 0 {
      assert a + b == b;
    } else {
      assert (a + b)[0] == a[0];
      assert (a + b)[1..] == a[1..] + b;
      FlattenAppend(a[1..], b);
    }
  }

  /** Replacing one inner list changes the flattening only in that list's span. */
  lemma FlattenReplace<T>(ls: seq<seq<T>>, i: nat, l: seq<T>)
    requires i < |ls|
    ensures Flatten(ls[i := l]) == Flatten(ls[..i]) + l + Flatten(ls[i + 1..])
    ensures Flatten(ls) == Flatten(ls[..i]) + ls[i] + Flatten(ls[i + 1..])
  {
    FlattenAppend(ls[..i] + [l], ls[i + 1..]);
    FlattenAppend(ls[..i], [l]);
    FlattenAppend(ls[..i] + [ls[i]], ls[i + 1..]);
    FlattenAppend(ls[..i], [ls[i]]);
    assert [l][1..] == [] && [ls[i]][1..] == [];
    assert ls[i := l] == ls[..i] + [l] + ls[i + 1..];
    assert ls == ls[..i] + [ls[i]] + ls[i + 1..];
  }

  /** An element occurs in the flattening exactly when it occurs in some inner list. */
  lemma {:induction false} FlattenMembership<T>(ls: seq<seq<T>>, x: T)
    ensures x in Flatten(ls) <==> exists j :: 0 <= j < |ls| && x in ls[j]
  {
    if |ls| > 0 {
      FlattenMembership(ls[1..], x);
      assert forall j :: 1 <= j < |ls| ==> ls[j] == ls[1..][j - 1];
      if x in Flatten(ls[1..]) {
        var j :| 0 <= j < |ls[1..]| && x in ls[1..][j];
        assert x in ls[j + 1];
      }
    }
  }

  /** Index of the first inner list containing `x`. */
  function FirstContaining<T(==)>(ls: seq<seq<T>>, x: T): (r: Option<nat>)
    ensures r.Some? ==> r.value < |ls| && x in ls[r.value]
    ensures r.Some? ==> forall j :: 0 <= j < r.value ==> x !in ls[j]
    ensures r.None? ==> forall j :: 0 <= j < |ls| ==> x !in ls[j]
  {
    if |ls| == 0 then None
    else if x in ls[0] then Some(0)
    else match FirstContaining(ls[1..], x)
      case None => None
      case Some(i) => Some(i + 1)
  }

  /** Whether some inner list starts with `x`. */
  function AnyStartsWith<T(==)>(ls: seq<seq<T>>, x: T): (r: bool)
    ensures r <==> exists j :: 0 <= j < |ls| && |ls[j]| > 0 && ls[j][0] == x
  {
    if |ls| == 0 then false
    else if |ls[0]| > 0 && ls[0][0] == x then true
    else
      assert forall j :: 1 <= j < |ls| ==> ls[j] == ls[1..][j - 1];
      AnyStartsWith(ls[1..], x)
  }

  /** `sub` can be obtained from `xs` by deleting elements. */
  predicate IsSubsequence<T(==)>(sub: seq<T>, xs: seq<T>)
  {
    || |sub| == 0
    || (&& |xs| > 0
        && ((sub[0] == xs[0] && IsSubsequence(sub[1..], xs[1..])) || IsSubsequence(sub, xs[1..])))
  }
}
