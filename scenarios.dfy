/** Small concrete runs of the model, fixed by proof.

    Fingerprints are 64 bits wide; the runs below only use the first four bits and
    leave the other sixty clear, so their distances are those of the four-bit
    prefixes. */
module Scenarios {
  import opened Common
  import opened Dicts
  import opened Paths
  import opened Fingerprints
  import opened Grouping
  import opened Clustering
  import opened Removal
  import opened Detect

  /** A fingerprint whose first four bits are `a` and whose other bits are clear. */
  function Pad(a: seq<bool>): Fingerprint
    requires |a| == 4
  {
    a + seq(60, _ => false)
  }

  /** Padding does not change distances. */
  lemma PadDistance(a: seq<bool>, b: seq<bool>)
    requires |a| == 4 && |b| == 4
    ensures Hamming(Pad(a), Pad(b)) == Hamming(a, b)
  {
    var z := seq(60, _ => false);
    HammingConcat(a, z, b, z);
    HammingZeroIffEqual(z, z);
  }

  function Bit(x: bool, y: bool): nat
  {
    if x != y then 1 else 0
  }

  /** The distance of two four-bit prefixes, position by position. */
  lemma Hamming4(a: seq<bool>, b: seq<bool>)
    requires |a| == 4 && |b| == 4
    ensures Hamming(a, b) == Bit(a[0], b[0]) + Bit(a[1], b[1]) + Bit(a[2], b[2]) + Bit(a[3], b[3])
  {
    assert a[..1][..0] == [] && b[..1][..0] == [];
    assert Hamming(a[..1], b[..1]) == Bit(a[0], b[0]);
    assert a[..2][..1] == a[..1] && b[..2][..1] == b[..1];
    assert Hamming(a[..2], b[..2]) == Hamming(a[..1], b[..1]) + Bit(a[1], b[1]);
    assert a[..3][..2] == a[..2] && b[..3][..2] == b[..2];
    assert Hamming(a[..3], b[..3]) == Hamming(a[..2], b[..2]) + Bit(a[2], b[2]);
    assert a[..4] == a && b[..4] == b;
  }

  /** The images `a.jpg`, `b.jpg` and `c.jpg` with the given fingerprint prefixes, in
      this order. */
  function Trio(a: seq<bool>, b: seq<bool>, c: seq<bool>): (l: seq<Candidate>)
    requires |a| == 4 && |b| == 4 && |c| == 4
    ensures |l| == 3 && l[0].path == "a.jpg" && l[1].path == "b.jpg" && l[2].path == "c.jpg"
  {
    [Candidate(Pad(a), "a.jpg"), Candidate(Pad(b), "b.jpg"), Candidate(Pad(c), "c.jpg")]
  }

  /** Fingerprint prefixes used below. */
  const P0000: seq<bool> := [false, false, false, false]
  const P0001: seq<bool> := [false, false, false, true]
  const P0011: seq<bool> := [false, false, true, true]
  const P0111: seq<bool> := [false, true, true, true]
  const P1111: seq<bool> := [true, true, true, true]

  /** Three images `a.jpg`, `b.jpg` and `c.jpg` with fingerprints `0000`, `0001` and
      `1111` and threshold 1: `a.jpg` absorbs `b.jpg` (distance 1) but not `c.jpg`
      (distance 4), and `c.jpg` alone forms no group. The only group is
      `[a.jpg, b.jpg]`. */
  lemma SeedAbsorbsNeighbour()
    ensures Clusters(Trio(P0000, P0001, P1111), 1) == [[0, 1]]
  {
    var l := Trio(P0000, P0001, P1111);
    PadDistance(P0000, P0001);
    PadDistance(P0000, P1111);
    Hamming4(P0000, P0001);
    Hamming4(P0000, P1111);
    var v: set<Path> := {"b.jpg"};
    var empty: set<Path> := {};
    var g0: seq<nat> := [0];
    var g01: seq<nat> := [0, 1];
    var none: seq<seq<nat>> := [];
    var gs := [g01];
    assert empty + {l[1].path} == v && g0 + [1] == g01;
    assert Scan(l, 1, 0, 1, empty, g0) == Scan(l, 1, 0, 2, v, g01);
    assert Scan(l, 1, 0, 2, v, g01) == Scan(l, 1, 0, 3, v, g01);
    assert none + [g01] == gs;
    assert Sweep(l, 1, 0, empty, none) == Sweep(l, 1, 1, v, gs);
    assert Sweep(l, 1, 1, v, gs) == Sweep(l, 1, 2, v, gs);
    assert Sweep(l, 1, 2, v, gs) == Sweep(l, 1, 3, v, gs);
  }

  /** In the same run `visual_map` holds the one group under the seed's key, and the
      visual removal set is `{b.jpg}`. */
  lemma SeedAbsorbsNeighbourRemoval(render: Fingerprint -> string)
    ensures var l := Trio(P0000, P0001, P1111);
            && VisualMap(l, 1, render) == [Entry(render(l[0].fp), ["a.jpg", "b.jpg"])]
            && Removed([VisualMap(l, 1, render)]) == {"b.jpg"}
  {
    var l := Trio(P0000, P0001, P1111);
    SeedAbsorbsNeighbour();
    var g0: seq<nat> := [0];
    var g01: seq<nat> := [0, 1];
    var none: seq<seq<nat>> := [];
    assert g01[..1] == g0 && g0[..0] == [];
    assert Members(l, g01) == ["a.jpg", "b.jpg"];
    assert [g01][..0] == none;
    var d := [Entry(render(l[0].fp), ["a.jpg", "b.jpg"])];
    assert VisualMap(l, 1, render) == d;
    var nomaps: seq<Dict> := [];
    assert [d][..0] == nomaps;
    assert RemovedIn(d) == Tail(["a.jpg", "b.jpg"]) by {
      assert d[..0] == [];
    }
    assert Tail(["a.jpg", "b.jpg"]) == {"b.jpg"} by {
      assert ["a.jpg", "b.jpg"][1..] == ["b.jpg"];
    }
  }

  /** The distances between the fingerprints `0000`, `0011` and `0111`. */
  lemma StaircaseDistances()
    ensures var l := Trio(P0000, P0011, P0111);
            && Hamming(l[0].fp, l[1].fp) == 2
            && Hamming(l[0].fp, l[2].fp) == 3
            && Hamming(l[1].fp, l[2].fp) == 1
  {
    PadDistance(P0000, P0011);
    PadDistance(P0000, P0111);
    PadDistance(P0011, P0111);
    Hamming4(P0000, P0011);
    Hamming4(P0000, P0111);
    Hamming4(P0011, P0111);
  }

  /** With threshold 1, `a.jpg` (`0000`) absorbs nothing and `b.jpg` (`0011`)
      absorbs `c.jpg` (`0111`, distance 1). */
  lemma StaircaseAtOne()
    ensures Clusters(Trio(P0000, P0011, P0111), 1) == [[1, 2]]
  {
    var l := Trio(P0000, P0011, P0111);
    StaircaseDistances();
    var empty: set<Path> := {};
    var none: seq<seq<nat>> := [];
    var g0: seq<nat> := [0];
    var g1: seq<nat> := [1];
    var g12: seq<nat> := [1, 2];
    var vc: set<Path> := {"c.jpg"};
    assert Scan(l, 1, 0, 1, empty, g0) == Scan(l, 1, 0, 2, empty, g0);
    assert Scan(l, 1, 0, 2, empty, g0) == Scan(l, 1, 0, 3, empty, g0);
    assert Sweep(l, 1, 0, empty, none) == Sweep(l, 1, 1, empty, none);
    assert empty + {l[2].path} == vc && g1 + [2] == g12;
    assert Scan(l, 1, 1, 2, empty, g1) == Scan(l, 1, 1, 3, vc, g12);
    assert none + [g12] == [g12];
    assert Sweep(l, 1, 1, empty, none) == Sweep(l, 1, 2, vc, [g12]);
    assert Sweep(l, 1, 2, vc, [g12]) == Sweep(l, 1, 3, vc, [g12]);
  }

  /** With threshold 2, `a.jpg` absorbs `b.jpg` (distance 2) first, and `c.jpg`
      (distance 3 from `a.jpg`) is left alone. */
  lemma StaircaseAtTwo()
    ensures Clusters(Trio(P0000, P0011, P0111), 2) == [[0, 1]]
  {
    var l := Trio(P0000, P0011, P0111);
    StaircaseDistances();
    var empty: set<Path> := {};
    var none: seq<seq<nat>> := [];
    var g0: seq<nat> := [0];
    var g01: seq<nat> := [0, 1];
    var vb: set<Path> := {"b.jpg"};
    assert empty + {l[1].path} == vb && g0 + [1] == g01;
    assert Scan(l, 2, 0, 1, empty, g0) == Scan(l, 2, 0, 2, vb, g01);
    assert Scan(l, 2, 0, 2, vb, g01) == Scan(l, 2, 0, 3, vb, g01);
    assert none + [g01] == [g01];
    assert Sweep(l, 2, 0, empty, none) == Sweep(l, 2, 1, vb, [g01]);
    assert Sweep(l, 2, 1, vb, [g01]) == Sweep(l, 2, 2, vb, [g01]);
    assert Sweep(l, 2, 2, vb, [g01]) == Sweep(l, 2, 3, vb, [g01]);
  }

  /** Raising the threshold can split a group: the group `[b.jpg, c.jpg]` formed at
      threshold 1 is gone at threshold 2, where `c.jpg` is in no group at all. */
  lemma ThresholdNotMonotone()
    ensures var l := Trio(P0000, P0011, P0111);
            var at1 := Clusters(l, 1);
            var at2 := Clusters(l, 2);
            && |at1| == 1 && Members(l, at1[0]) == ["b.jpg", "c.jpg"]
            && forall a, k :: 0 <= a < |at2| && 0 <= k < |at2[a]| ==> l[at2[a][k]].path != "c.jpg"
  {
    var l := Trio(P0000, P0011, P0111);
    StaircaseAtOne();
    StaircaseAtTwo();
    var g12: seq<nat> := [1, 2];
    assert Members(l, g12) == [l[1].path, l[2].path];
  }

  /** Two files with the same content and different names form one content group of
      two paths... */
  lemma ContentTwinsGrouped(digest: Path -> string)
    requires digest("a.jpg") == digest("b.jpg")
    ensures GroupedBy(["a.jpg", "b.jpg"], digest) == [Entry(digest("a.jpg"), ["a.jpg", "b.jpg"])]
  {
    var k := digest("a.jpg");
    var none: seq<Path> := [];
    var nodict: Dict := [];
    assert ["a.jpg", "b.jpg"][..1] == ["a.jpg"] && ["a.jpg"][..0] == none;
    assert GroupedBy(["a.jpg"], digest) == [Entry(k, ["a.jpg"])];
    assert [Entry(k, ["a.jpg"])][1..] == nodict && ["a.jpg"] + ["b.jpg"] == ["a.jpg", "b.jpg"];
    assert Append([Entry(k, ["a.jpg"])], k, "b.jpg") == [Entry(k, ["a.jpg", "b.jpg"])];
  }

  /** A single file forms a name group of its own. */
  lemma SingleNameGroup(p: Path)
    requires '/' !in p
    ensures GroupedBy([p], Basename) == [Entry(p, [p])]
  {
    var none: seq<Path> := [];
    var nodict: Dict := [];
    BasenameNoSlash(p);
    assert [p][..0] == none;
    assert GroupedBy(none, Basename) == nodict;
  }

  /** A new key goes after a one-entry dictionary. */
  lemma AppendSecondKey(p: Path, q: Path)
    requires p != q
    ensures Append([Entry(p, [p])], q, q) == [Entry(p, [p]), Entry(q, [q])]
  {
    var one: Dict := [Entry(p, [p])];
    var nodict: Dict := [];
    assert one[1..] == nodict;
  }

  /** ... and two name groups of one path each, which the report leaves out. */
  lemma DifferentNamesApart(p: Path, q: Path)
    requires '/' !in p && '/' !in q && p != q
    ensures GroupedBy([p, q], Basename) == [Entry(p, [p]), Entry(q, [q])]
  {
    SingleNameGroup(p);
    BasenameNoSlash(q);
    GroupedBySnoc([p], Basename, q);
    assert [p] + [q] == [p, q];
    AppendSecondKey(p, q);
  }

  /** A file that follows the first member of a content group and is itself the seed
      of a visual group is removed once, together with the follower of that visual
      group. */
  lemma RemovedOnce()
    ensures Removed([[Entry("h", ["x.jpg", "y.jpg"])], [Entry("v", ["y.jpg", "z.jpg"])]]) == {"y.jpg", "z.jpg"}
  {
    var hashMap: Dict := [Entry("h", ["x.jpg", "y.jpg"])];
    var visualMap: Dict := [Entry("v", ["y.jpg", "z.jpg"])];
    var nomaps: seq<Dict> := [];
    assert [hashMap, visualMap][..1] == [hashMap];
    assert [hashMap][..0] == nomaps;
    assert RemovedIn(hashMap) == {"y.jpg"} by {
      assert hashMap[..0] == [];
      assert ["x.jpg", "y.jpg"][1..] == ["y.jpg"];
    }
    assert RemovedIn(visualMap) == {"z.jpg"} by {
      assert visualMap[..0] == [];
      assert ["y.jpg", "z.jpg"][1..] == ["z.jpg"];
    }
  }

  // ---------------------------------------------------------------------------
  // A whole scan: a content group moved entirely

  /** The hashes of the scan below: `a.jpg` is `0000`, and `b.jpg` and `c.jpg`,
      which have the same content, are both `0001`. */
  ghost predicate TwinScan(o: Oracles)
  {
    && o.digest("a.jpg") != o.digest("b.jpg")
    && o.digest("b.jpg") == o.digest("c.jpg")
    && o.phash("a.jpg") == Some(Pad(P0000))
    && o.phash("b.jpg") == Some(Pad(P0001))
    && o.phash("c.jpg") == Some(Pad(P0001))
  }

  /** Every image of that scan has a perceptual hash, so all three enter
      `phash_list`, in scan order. */
  lemma TwinScanPhashList(o: Oracles)
    requires TwinScan(o)
    ensures PhashList(["a.jpg", "b.jpg", "c.jpg"], o) == Trio(P0000, P0001, P0001)
  {
    var none: seq<Path> := [];
    var empty: seq<Candidate> := [];
    assert Fingerprinted(none, o.phash) == empty;
    FingerprintedSnoc(none, o.phash, "a.jpg");
    assert none + ["a.jpg"] == ["a.jpg"];
    FingerprintedSnoc(["a.jpg"], o.phash, "b.jpg");
    assert ["a.jpg"] + ["b.jpg"] == ["a.jpg", "b.jpg"];
    FingerprintedSnoc(["a.jpg", "b.jpg"], o.phash, "c.jpg");
    assert ["a.jpg", "b.jpg"] + ["c.jpg"] == ["a.jpg", "b.jpg", "c.jpg"];
  }

  /** `a.jpg` is within distance 1 of both twins and absorbs them both. */
  lemma TwinScanClusters()
    ensures Clusters(Trio(P0000, P0001, P0001), Threshold) == [[0, 1, 2]]
  {
    var l := Trio(P0000, P0001, P0001);
    PadDistance(P0000, P0001);
    Hamming4(P0000, P0001);
    var empty: set<Path> := {};
    var none: seq<seq<nat>> := [];
    var g0: seq<nat> := [0];
    var g01: seq<nat> := [0, 1];
    var g012: seq<nat> := [0, 1, 2];
    var vb: set<Path> := {"b.jpg"};
    var vbc: set<Path> := {"b.jpg", "c.jpg"};
    assert empty + {l[1].path} == vb && g0 + [1] == g01;
    assert vb + {l[2].path} == vbc && g01 + [2] == g012;
    assert Scan(l, Threshold, 0, 1, empty, g0) == Scan(l, Threshold, 0, 2, vb, g01);
    assert Scan(l, Threshold, 0, 2, vb, g01) == Scan(l, Threshold, 0, 3, vbc, g012);
    assert none + [g012] == [g012];
    assert Sweep(l, Threshold, 0, empty, none) == Sweep(l, Threshold, 1, vbc, [g012]);
    assert Sweep(l, Threshold, 1, vbc, [g012]) == Sweep(l, Threshold, 2, vbc, [g012]);
    assert Sweep(l, Threshold, 2, vbc, [g012]) == Sweep(l, Threshold, 3, vbc, [g012]);
  }

  /** `visual_map` of that scan: one list, seeded by `a.jpg`. */
  lemma TwinScanVisualMap(render: Fingerprint -> string)
    ensures var l := Trio(P0000, P0001, P0001);
            VisualMap(l, Threshold, render) == [Entry(render(l[0].fp), ["a.jpg", "b.jpg", "c.jpg"])]
  {
    var l := Trio(P0000, P0001, P0001);
    var g012: seq<nat> := [0, 1, 2];
    var none: seq<seq<nat>> := [];
    TwinScanClusters();
    assert [g012][..0] == none;
    assert Members(l, g012) == ["a.jpg", "b.jpg", "c.jpg"];
  }

  /** `b.jpg`, the first file of the content group, follows `a.jpg` in the visual
      group and is moved. */
  lemma TwinScanMovesSeedTwin(o: Oracles)
    requires TwinScan(o)
    ensures "b.jpg" in Plan(["a.jpg", "b.jpg", "c.jpg"], o)
  {
    var paths := ["a.jpg", "b.jpg", "c.jpg"];
    var l := Trio(P0000, P0001, P0001);
    TwinScanPhashList(o);
    TwinScanVisualMap(o.render);
    var hashMap := GroupedBy(paths, o.digest);
    var visualMap := VisualMap(l, Threshold, o.render);
    assert visualMap[0].files[1] == "b.jpg";
    assert FlaggedIn([hashMap, visualMap][1], "b.jpg");
    RemovedIffFlagged([hashMap, visualMap], "b.jpg");
  }

  /** `c.jpg` follows `b.jpg` in the content group and is moved. */
  lemma TwinScanMovesLaterTwin(o: Oracles)
    requires TwinScan(o)
    ensures "c.jpg" in Plan(["a.jpg", "b.jpg", "c.jpg"], o)
  {
    var paths := ["a.jpg", "b.jpg", "c.jpg"];
    assert ContentTwinBefore(paths, o, "c.jpg") by {
      assert paths[1] == "b.jpg" && paths[2] == "c.jpg";
    }
    ContentTwinMoved(paths, o, "c.jpg");
  }

  /** In that scan only `b.jpg` and `c.jpg` have an earlier content twin... */
  lemma TwinScanContentTwins(o: Oracles, p: Path)
    requires TwinScan(o)
    requires ContentTwinBefore(["a.jpg", "b.jpg", "c.jpg"], o, p)
    ensures p == "b.jpg" || p == "c.jpg"
  {
    var paths := ["a.jpg", "b.jpg", "c.jpg"];
    var i, j :| 0 <= i < j < |paths| && paths[j] == p && o.digest(paths[i]) == o.digest(p);
    assert j == 1 || j == 2;
  }

  /** ... and only they are absorbed into a visual group. */
  lemma TwinScanFollowers(o: Oracles, p: Path)
    requires TwinScan(o)
    requires VisuallyAbsorbed(["a.jpg", "b.jpg", "c.jpg"], o, p)
    ensures p == "b.jpg" || p == "c.jpg"
  {
    var l := Trio(P0000, P0001, P0001);
    TwinScanPhashList(o);
    TwinScanClusters();
    var gs := Clusters(l, Threshold);
    var a, x :| 0 <= a < |gs| && 1 <= x < |gs[a]| && l[gs[a][x]].path == p;
    assert gs[a][x] == 1 || gs[a][x] == 2;
  }

  /** No other file of that scan is moved; in particular `a.jpg` stays. */
  lemma TwinScanMovesNothingElse(o: Oracles, p: Path)
    requires TwinScan(o)
    requires p in Plan(["a.jpg", "b.jpg", "c.jpg"], o)
    ensures p == "b.jpg" || p == "c.jpg"
  {
    var paths := ["a.jpg", "b.jpg", "c.jpg"];
    PlanSound(paths, o, p);
    if ContentTwinBefore(paths, o, p) {
      TwinScanContentTwins(o, p);
    } else {
      TwinScanFollowers(o, p);
    }
  }

  /** The moved files are exactly `b.jpg` and `c.jpg`: the whole content group
      `[b.jpg, c.jpg]` goes, while `a.jpg`, visually close to both, stays. */
  lemma ContentGroupMovedWhole(o: Oracles)
    requires TwinScan(o)
    ensures Plan(["a.jpg", "b.jpg", "c.jpg"], o) == {"b.jpg", "c.jpg"}
  {
    TwinScanMovesSeedTwin(o);
    TwinScanMovesLaterTwin(o);
    forall p | p in Plan(["a.jpg", "b.jpg", "c.jpg"], o) ensures p == "b.jpg" || p == "c.jpg" {
      TwinScanMovesNothingElse(o, p);
    }
  }
}
