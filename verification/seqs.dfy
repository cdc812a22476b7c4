/** The sequence operations of Rust's `Vec` and iterators that the contract
    relies on: `position`, `remove`, `rev`, and the distinctness its indices
    are meant to keep. */
module Seqs {
  import opened Base

  /** `iter().position(p)`: the first index whose element satisfies `p`. */
  function Position<T>(s: seq<T>, p: T -> bool): (r: Option<nat>)
    ensures r.Some? ==> r.value < |s| && p(s[r.value])
    ensures r.Some? ==> forall j :: 0 <= j < r.value ==> !p(s[j])
    ensures r.None? <==> forall j :: 0 <= j < |s| ==> !p(s[j])
  {
    if |s| == 0 then None
    else if p(s[0]) then Some(0)
    else
      match Position(s[1..], p)
      case None => None
      case Some(i) => Some(i + 1)
  }

  /** `Vec::remove(i)`: an order-preserving delete. */
  function RemoveAt<T>(s: seq<T>, i: nat): (r: seq<T>)
    requires i < |s|
    ensures |r| == |s| - 1
    ensures forall j :: 0 <= j < i ==> r[j] == s[j]
    ensures forall j :: i <= j < |r| ==> r[j] == s[j + 1]
  {
    s[..i] + s[i + 1..]
  }

  /** Removing position `i` takes exactly one copy of `s[i]` out. */
  lemma RemoveAtMultiset<T>(s: seq<T>, i: nat)
    requires i < |s|
    ensures multiset(RemoveAt(s, i)) == multiset(s) - multiset{s[i]}
  {
    assert s == s[..i] + [s[i]] + s[i + 1..];
  }

  /** Every element of `RemoveAt(s, i)` is an element of `s`. */
  lemma RemoveAtSubset<T>(s: seq<T>, i: nat, x: T)
    requires i < |s|
    requires x in RemoveAt(s, i)
    ensures x in s
  {
    var r := RemoveAt(s, i);
    var k :| 0 <= k < |r| && r[k] == x;
    if k < i {
      assert s[k] == x;
    } else {
      assert s[k + 1] == x;
    }
  }

  /** Every element of `s` other than the removed one survives. */
  lemma RemoveAtKeeps<T>(s: seq<T>, i: nat, k: nat)
    requires i < |s| && k < |s| && k != i
    ensures s[k] in RemoveAt(s, i)
  {
    var r := RemoveAt(s, i);
    if k < i {
      assert r[k] == s[k];
    } else {
      assert r[k - 1] == s[k];
    }
  }

  /** Any value other than the removed element survives the removal. */
  lemma RemoveAtKeepsOthers<T>(s: seq<T>, i: nat, x: T)
    requires i < |s| && x in s && x != s[i]
    ensures x in RemoveAt(s, i)
  {
    var k :| 0 <= k < |s| && s[k] == x;
    RemoveAtKeeps(s, i, k);
  }

  /** Removing the last element of `s + [x]` gives back `s`. */
  lemma RemoveLast<T>(s: seq<T>, x: T)
    ensures RemoveAt(s + [x], |s|) == s
  {
  }

  /** No element occurs twice. */
  ghost predicate Distinct<T>(s: seq<T>) {
    forall i, j :: 0 <= i < j < |s| ==> s[i] != s[j]
  }

  lemma {:induction false} DistinctRemoveAt<T>(s: seq<T>, i: nat)
    requires i < |s| && Distinct(s)
    ensures Distinct(RemoveAt(s, i))
    ensures s[i] !in RemoveAt(s, i)
  {
    var r := RemoveAt(s, i);
    forall a, b | 0 <= a < b < |r|
      ensures r[a] != r[b]
    {
      var a' := if a < i then a else a + 1;
      var b' := if b < i then b else b + 1;
      assert r[a] == s[a'] && r[b] == s[b'] && a' < b';
    }
    forall k | 0 <= k < |r|
      ensures r[k] != s[i]
    {
      var k' := if k < i then k else k + 1;
      assert r[k] == s[k'] && k' != i;
    }
  }

  lemma DistinctAppend<T>(s: seq<T>, x: T)
    requires Distinct(s) && x !in s
    ensures Distinct(s + [x])
  {
  }

  /** `into_iter().rev()`. */
  function Reverse<T>(s: seq<T>): (r: seq<T>)
    ensures |r| == |s|
    ensures forall i :: 0 <= i < |s| ==> r[i] == s[|s| - 1 - i]
  {
    if |s| == 0 then [] else Reverse(s[1..]) + [s[0]]
  }
}
