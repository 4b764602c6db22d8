/**
  Sequence facts used by the AMI script's accumulators: duplicate-freedom,
  the first-seen deduplication that `getAllInstanceAmis` performs with its
  `if ami not in ami_ids: ami_ids.append(ami)` loop, and flattening a list
  of pages.
 */
module Seqs {

  /** No element occurs twice. */
  predicate NoDup<T(==)>(s: seq<T>)
  {
    forall i, j :: 0 <= i < j < |s| ==> s[i] != s[j]
  }

  /** The elements of `s` with every repeat dropped, each kept where it was
      first seen: the result of appending each element of `s`, in order, to
      an initially empty list unless it is already there. */
  function Dedup<T(==,!new)>(s: seq<T>): (r: seq<T>)
    ensures NoDup(r)
    ensures forall x :: x in r <==> x in s
  {
    if |s| == 0 then []
    else
      var d := Dedup(s[..|s| - 1]);
      var x := s[|s| - 1];
      assert forall y :: y in s <==> y in s[..|s| - 1] || y == x;
      if x in d then d else d + [x]
  }

  /** The position at which `x` first occurs in `s`. */
  function FirstIndex<T(==)>(s: seq<T>, x: T): (k: nat)
    requires x in s
    ensures k < |s| && s[k] == x && x !in s[..k]
  {
    var init := s[..|s| - 1];
    if x in init then
      var k := FirstIndex(init, x);
      assert s[..k] == init[..k];
      k
    else
      |s| - 1
  }

  /** `Dedup` keeps first-seen order: an element that first occurs earlier
      in `s` comes earlier in `Dedup(s)`. */
  lemma {:induction false} DedupFirstSeenOrder<T(!new)>(s: seq<T>)
    ensures forall i, j :: 0 <= i < j < |Dedup(s)| ==>
              FirstIndex(s, Dedup(s)[i]) < FirstIndex(s, Dedup(s)[j])
  {
    if |s| > 0 {
      var init := s[..|s| - 1];
      var x := s[|s| - 1];
      var d := Dedup(init);
      DedupFirstSeenOrder(init);
      forall y | y in init
        ensures FirstIndex(s, y) == FirstIndex(init, y)
      {
      }
      if x !in d {
        assert Dedup(s) == d + [x];
        assert FirstIndex(s, x) == |s| - 1;
        forall i | 0 <= i < |d|
          ensures FirstIndex(s, Dedup(s)[i]) < |s| - 1
        {
          assert Dedup(s)[i] == d[i] && d[i] in init;
        }
      }
    }
  }

  /** A duplicate-free list is its own deduplication. */
  lemma {:induction false} DedupOfNoDup<T(!new)>(s: seq<T>)
    requires NoDup(s)
    ensures Dedup(s) == s
  {
    if |s| > 0 {
      var init := s[..|s| - 1];
      DedupOfNoDup(init);
      assert s[|s| - 1] !in init;
      assert init + [s[|s| - 1]] == s;
    }
  }

  /** Deduplication adds nothing when the last element was already seen,
      and appends it otherwise. */
  lemma DedupSnoc<T(!new)>(s: seq<T>, x: T)
    ensures Dedup(s + [x]) == if x in Dedup(s) then Dedup(s) else Dedup(s) + [x]
  {
    assert (s + [x])[..|s|] == s;
  }

  /** Deduplicating one more element of `t` after `s`. */
  lemma DedupStep<T(!new)>(s: seq<T>, t: seq<T>, j: nat)
    requires j < |t|
    ensures Dedup(s + t[..j + 1]) ==
      if t[j] in Dedup(s + t[..j]) then Dedup(s + t[..j]) else Dedup(s + t[..j]) + [t[j]]
  {
    assert s + t[..j + 1] == (s + t[..j]) + [t[j]];
    DedupSnoc(s + t[..j], t[j]);
  }

  /** The pages one after the other. */
  function Flatten<T>(pages: seq<seq<T>>): seq<T>
  {
    if |pages| == 0 then [] else Flatten(pages[..|pages| - 1]) + pages[|pages| - 1]
  }
}
