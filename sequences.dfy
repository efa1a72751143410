// Small facts about sequences, stated generically so that the solver does
// not have to rediscover them on sequences of large records.
module Sequences {

  /** A non-empty sequence is its head followed by its tail. */
  lemma HeadTail<T>(s: seq<T>)
    requires s != []
    ensures [s[0]] + s[1..] == s
  {
  }

  /** Concatenation regrouped to the left. */
  lemma Regroup<T>(left: seq<T>, mid: seq<T>, a: seq<T>, b: seq<T>, c: seq<T>)
    requires left == a + (b + c) && mid == a + b
    ensures left == mid + c
  {
  }

  /** Concatenation is associative. */
  lemma Assoc<T>(a: seq<T>, b: seq<T>, c: seq<T>)
    ensures (a + b) + c == a + (b + c)
  {
  }

  /** A prefix of a prefix is a prefix. */
  lemma PrefixOfPrefix<T>(a: seq<T>, b: seq<T>, c: seq<T>)
    requires |a| <= |b| <= |c| && b[..|a|] == a && c[..|b|] == b
    ensures c[..|a|] == a
  {
    assert c[..|a|] == c[..|b|][..|a|];
  }

  /** Appending to an empty sequence. */
  lemma EmptyLeft<T>(e: seq<T>, s: seq<T>)
    requires e == []
    ensures e + s == s
  {
  }

  /** Appending an empty sequence. */
  lemma EmptyRight<T>(s: seq<T>, e: seq<T>)
    requires e == []
    ensures s + e == s
  {
  }
}
