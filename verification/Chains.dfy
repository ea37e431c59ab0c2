/** Pointers to nodes, and the sequences of nodes that doubly linked lists spell. */
module Chains {
  import opened Seqs

  datatype Ptr<T> = Null | To(node: T)

  /** A pointer to an element of a sequence; null beyond its ends. */
  function At<T>(s: seq<T>, i: int): Ptr<T> {
    if 0 <= i < |s| then To(s[i]) else Null
  }

  lemma {:induction false} NoDupCut<T>(s: seq<T>, i: nat)
    requires NoDup(s) && i < |s|
    ensures NoDup(s[..i] + s[i + 1..]) && s[i] !in s[..i] + s[i + 1..]
  {
    var t := s[..i] + s[i + 1..];
    if i == 0 {
      assert t == s[1..];
    } else {
      NoDupCut(s[1..], i - 1);
      assert t[1..] == s[1..][..i - 1] + s[1..][i..];
      assert t == [s[0]] + t[1..];
    }
  }

  lemma Distinct<T>(s: seq<T>, i: nat, j: nat)
    requires NoDup(s) && i < |s| && j < |s|
    ensures s[i] == s[j] ==> i == j
  {
    if i < j { NoDupIndex(s, i, j); }
    if j < i { NoDupIndex(s, j, i); }
  }
}
