/** Perceptual-hash fingerprints and their Hamming distance.

    `imagehash.phash` with its default size of 8 gives an 8 x 8 bit matrix; the
    script only ever compares two of them with `-`, which counts the positions in
    which the flattened matrices differ. */
module Fingerprints {

  /** Number of bits in a perceptual hash (hash size 8, squared). */
  const Bits: nat := 64

  type Fingerprint = s: seq<bool> | |s| == Bits witness seq(64, _ => false)

  /** The number of positions in which `a` and `b` differ. */
  function Hamming(a: seq<bool>, b: seq<bool>): (d: nat)
    requires |a| == |b|
    ensures d <= |a|
  {
    if a == [] then 0
    else Hamming(a[..|a| - 1], b[..|b| - 1]) + (if a[|a| - 1] != b[|b| - 1] then 1 else 0)
  }

  /** The positions in which `a` and `b` differ. */
  ghost function Differing(a: seq<bool>, b: seq<bool>): set<nat>
    requires |a| == |b|
  {
    set i: nat | i < |a| && a[i] != b[i]
  }

  /** The distance is exactly the number of differing positions. */
  lemma {:induction false} HammingCountsDifferences(a: seq<bool>, b: seq<bool>)
    requires |a| == |b|
    ensures Hamming(a, b) == |Differing(a, b)|
  {
    if a != [] {
      var n := |a| - 1;
      HammingCountsDifferences(a[..n], b[..n]);
      var front := Differing(a[..n], b[..n]);
      assert front == set i: nat | i < n && a[i] != b[i];
      if a[n] != b[n] {
        assert Differing(a, b) == front + {n};
      } else {
        assert Differing(a, b) == front;
      }
    }
  }

  /** Distance zero means equal fingerprints, and only then. With a threshold of 0
      visual clustering is therefore clustering by identical fingerprints. */
  lemma {:induction false} HammingZeroIffEqual(a: seq<bool>, b: seq<bool>)
    requires |a| == |b|
    ensures Hamming(a, b) == 0 <==> a == b
  {
    if a != [] {
      var n := |a| - 1;
      HammingZeroIffEqual(a[..n], b[..n]);
      assert a == a[..n] + [a[n]] && b == b[..n] + [b[n]];
    }
  }

  lemma {:induction false} HammingSymmetric(a: seq<bool>, b: seq<bool>)
    requires |a| == |b|
    ensures Hamming(a, b) == Hamming(b, a)
  {
    if a != [] {
      HammingSymmetric(a[..|a| - 1], b[..|b| - 1]);
    }
  }

  /** The triangle inequality. */
  lemma {:induction false} HammingTriangle(a: seq<bool>, b: seq<bool>, c: seq<bool>)
    requires |a| == |b| == |c|
    ensures Hamming(a, c) <= Hamming(a, b) + Hamming(b, c)
  {
    if a != [] {
      var n := |a| - 1;
      HammingTriangle(a[..n], b[..n], c[..n]);
    }
  }

  /** The distance of two concatenations is the sum of the distances of the parts. */
  lemma {:induction false} HammingConcat(a1: seq<bool>, a2: seq<bool>, b1: seq<bool>, b2: seq<bool>)
    requires |a1| == |b1| && |a2| == |b2|
    ensures Hamming(a1 + a2, b1 + b2) == Hamming(a1, b1) + Hamming(a2, b2)
  {
    if a2 != [] {
      var n := |a2| - 1;
      HammingConcat(a1, a2[..n], b1, b2[..n]);
      assert (a1 + a2)[..|a1 + a2| - 1] == a1 + a2[..n];
      assert (b1 + b2)[..|b1 + b2| - 1] == b1 + b2[..n];
    } else {
      assert a1 + a2 == a1 && b1 + b2 == b1;
    }
  }
}
