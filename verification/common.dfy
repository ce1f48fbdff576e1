module Options {

  datatype Option<+T> = None | Some(value: T)
}

/** ASCII case folding, as `eq_ignore_ascii_case` and `to_ascii_lowercase` do it. */
module Ascii {

  function LowerChar(c: char): (l: char) {
    if 'A' <= c <= 'Z' then c - 'A' + 'a' else c
  }

  function Lower(s: string): (l: string)
    ensures |l| == |s|
  {
    seq(|s|, i requires 0 <= i < |s| => LowerChar(s[i]))
  }

  /** Equal up to the case of an ASCII letter. */
  predicate SameLetter(c: char, d: char) {
    || c == d
    || ('A' <= c <= 'Z' && d as int == c as int + 32)
    || ('A' <= d <= 'Z' && c as int == d as int + 32)
  }

  /** Lower-casing identifies exactly the texts that differ in case only. */
  lemma LowerFolds(s: string, t: string)
    ensures Lower(s) == Lower(t) <==> |s| == |t| && forall i | 0 <= i < |s| :: SameLetter(s[i], t[i])
  {
    if Lower(s) == Lower(t) {
      forall i | 0 <= i < |s| ensures SameLetter(s[i], t[i]) {
        assert Lower(s)[i] == Lower(t)[i];
      }
    }
  }
}

/** Facts about natural numbers that several parts share. */
module Naturals {
  lemma MulMonotone(x: nat, y: nat, z: nat)
    requires x <= y
    ensures x * z <= y * z
  {
  }

  /** A number larger than all of a set. */
  ghost function Above(ns: set<nat>): (m: nat)
    ensures m !in ns && forall n | n in ns :: n < m
    decreases |ns|
  {
    if ns == {} then 0
    else
      var n :| n in ns;
      var m := Above(ns - {n});
      assert forall k | k in ns :: k == n || k in ns - {n};
      if n < m then m else n + 1
  }
}
