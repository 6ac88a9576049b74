/** Stretches of sequences: parts of equal stretches are equal. */
module Slices {
  /** A part of a stretch that two sequences share. */
  lemma SameWithin<T>(s: seq<T>, t: seq<T>, a: nat, b: nat, m: nat, lo: nat, len: nat)
    requires a + m <= |s| && b + m <= |t| && s[a..a + m] == t[b..b + m] && lo + len <= m
    ensures s[a + lo..a + lo + len] == t[b + lo..b + lo + len]
  {
    PartOf(s, a, m, lo, len);
    PartOf(t, b, m, lo, len);
  }

  lemma PartOf<T>(s: seq<T>, a: nat, m: nat, lo: nat, len: nat)
    requires a + m <= |s| && lo + len <= m
    ensures s[a..a + m][lo..lo + len] == s[a + lo..a + lo + len]
  {
    var x, y := s[a..a + m][lo..lo + len], s[a + lo..a + lo + len];
    forall k | 0 <= k < len ensures x[k] == y[k] {
      assert x[k] == s[a..a + m][lo + k];
    }
  }

  /** The middle of three parts. */
  lemma MiddleOf<T>(a: seq<T>, b: seq<T>, c: seq<T>)
    ensures (a + b + c)[..|a|] == a && (a + b + c)[|a|..|a| + |b|] == b && (a + b + c)[|a| + |b|..] == c
  {
  }

  /** Grouping of three parts. */
  lemma Assoc<T>(a: seq<T>, b: seq<T>, c: seq<T>)
    ensures a + (b + c) == (a + b) + c
  {
  }

  /** Grouping of four parts. */
  lemma Regroup<T>(a: seq<T>, b: seq<T>, c: seq<T>, d: seq<T>)
    ensures a + b + c + d == a + (b + c + d) == (a + b) + (c + d)
  {
  }
}
