/** Generic facts about sequences, stated once so that the methods walking a sequence
    need not re-derive sequence equality in their own, larger contexts. */
module Sequences {
  lemma PrefixStep<T>(s: seq<T>, k: nat)
    requires k < |s|
    ensures s[..k + 1] == s[..k] + [s[k]]
  {
  }

  lemma PrefixWhole<T>(s: seq<T>)
    ensures s[..|s|] == s
  {
  }

  lemma PrefixEmpty<T>(s: seq<T>)
    ensures s[..0] == []
  {
  }

  lemma AppendEmpty<T>(a: seq<T>)
    ensures a + [] == a && [] + a == a
  {
  }

  lemma AppendAssoc<T>(a: seq<T>, b: seq<T>, c: seq<T>)
    ensures a + (b + c) == (a + b) + c
  {
  }

  /** Replacing the element at `at` by the sequence `middle`. */
  lemma Splice<T>(s: seq<T>, at: nat, middle: seq<T>)
    requires at < |s|
    ensures var r := s[..at] + middle + s[at + 1..];
      && |r| == |s| - 1 + |middle|
      && r[..at] == s[..at]
      && r[at + |middle|..] == s[at + 1..]
      && forall i :: 0 <= i < |middle| ==> r[at + i] == middle[i]
  {
    var r := s[..at] + middle + s[at + 1..];
    assert r[..at] == s[..at];
    assert r[at + |middle|..] == s[at + 1..];
  }
}
