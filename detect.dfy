/** The top level of the script: the scanning loop of `detect_duplicates`
    (detect_duplicates.py lines 34-68) and what `main` does with its three maps
    (lines 101-112).

    Everything the script obtains from outside its own code is a parameter: the
    content digest of a file (`hash_file`), its perceptual hash, or none when the
    image cannot be decoded (`perceptual_hash`), and the text form of a perceptual
    hash, which is the key of `visual_map`. */
module Detect {
  import opened Common
  import opened Dicts
  import opened Paths
  import opened Fingerprints
  import opened Grouping
  import opened Clustering
  import opened Removal
  import opened Log

  /** The largest Hamming distance at which two images count as similar (line 62). */
  const Threshold: int := 5

  /** The results of the foreign calls, as functions of their arguments. */
  datatype Oracles = Oracles(
    digest: Path -> string,
    phash: Path -> Option<Fingerprint>,
    render: Fingerprint -> string)

  /** `phash_list` of a scan. */
  function PhashList(paths: seq<Path>, o: Oracles): seq<Candidate>
  {
    Fingerprinted(paths, o.phash)
  }

  /** `detect_duplicates(image_paths)`. */
  method DetectDuplicates(paths: seq<Path>, o: Oracles) returns (nameMap: Dict, hashMap: Dict, visualMap: Dict)
    ensures nameMap == GroupedBy(paths, Basename)
    ensures hashMap == GroupedBy(paths, o.digest)
    ensures visualMap == VisualMap(PhashList(paths, o), Threshold, o.render)
  {
    nameMap := [];
    hashMap := [];
    var phashList: seq<Candidate> := [];
    var i := 0;
    while i < |paths|
      invariant 0 <= i <= |paths|
      invariant nameMap == GroupedBy(paths[..i], Basename)
      invariant hashMap == GroupedBy(paths[..i], o.digest)
      invariant phashList == Fingerprinted(paths[..i], o.phash)
    {
      var path := paths[i];
      assert paths[..i + 1] == paths[..i] + [path];
      GroupedBySnoc(paths[..i], Basename, path);
      GroupedBySnoc(paths[..i], o.digest, path);
      FingerprintedSnoc(paths[..i], o.phash, path);
      nameMap := Append(nameMap, Basename(path), path);
      var fileHash := o.digest(path);
      hashMap := Append(hashMap, fileHash, path);
      var visualHash := o.phash(path);
      if visualHash.Some? {
        phashList := phashList + [Candidate(visualHash.value, path)];
      }
      i := i + 1;
    }
    assert paths[..i] == paths;
    visualMap := ClusterVisual(phashList, Threshold, o.render);
  }

  /** The argument of `write_log` in `main` (line 106). */
  ghost function Report(paths: seq<Path>, o: Oracles): seq<(string, Dict)>
  {
    [("Nome", GroupedBy(paths, Basename)),
     ("Hash", GroupedBy(paths, o.digest)),
     ("Visual", VisualMap(PhashList(paths, o), Threshold, o.render))]
  }

  /** The paths `main` moves when the user confirms: the removal set of
      `[hash_map, visual_map]` (line 111); the name map takes no part. */
  ghost function Plan(paths: seq<Path>, o: Oracles): set<Path>
  {
    Removed([GroupedBy(paths, o.digest), VisualMap(PhashList(paths, o), Threshold, o.render)])
  }

  /** `main` after the walk: the lines of the report, and the paths handed to the
      mover, which are none unless the user answered `s`. */
  method Analyse(paths: seq<Path>, o: Oracles, confirmed: bool) returns (log: seq<string>, moved: set<Path>)
    ensures log == LogLines(Report(paths, o))
    ensures moved == if confirmed then Plan(paths, o) else {}
  {
    var nameMap, hashMap, visualMap := DetectDuplicates(paths, o);
    log := LogLines([("Nome", nameMap), ("Hash", hashMap), ("Visual", visualMap)]);
    if confirmed {
      moved := RemovalSet([hashMap, visualMap]);
      forall p ensures p in moved <==> p in Plan(paths, o) {
        RemovedIffFlagged([hashMap, visualMap], p);
      }
    } else {
      moved := {};
    }
  }

  // ---------------------------------------------------------------------------
  // Which paths are moved

  /** An earlier scanned path has the same content digest as `p`. */
  ghost predicate ContentTwinBefore(paths: seq<Path>, o: Oracles, p: Path)
  {
    exists i, j :: 0 <= i < j < |paths| && paths[j] == p && o.digest(paths[i]) == o.digest(p)
  }

  /** `p` was absorbed as a follower into a visual group. */
  ghost predicate VisuallyAbsorbed(paths: seq<Path>, o: Oracles, p: Path)
  {
    Absorbed(PhashList(paths, o), Threshold, p)
  }

  /** A path of `phash_list` sits at some position of the scan, with its hash. */
  lemma CandidateOrigin(paths: seq<Path>, o: Oracles, a: nat)
    requires a < |PhashList(paths, o)|
    ensures exists i :: 0 <= i < |paths| && paths[i] == PhashList(paths, o)[a].path &&
                        o.phash(paths[i]) == Some(PhashList(paths, o)[a].fp)
  {
    var idx := Origins(paths, o.phash);
    assert paths[idx[a]] == PhashList(paths, o)[a].path;
  }

  /** A scanned path with a perceptual hash is in `phash_list` with that hash. */
  lemma InPhashList(paths: seq<Path>, o: Oracles, i: nat)
    requires i < |paths| && o.phash(paths[i]).Some?
    ensures exists a :: 0 <= a < |PhashList(paths, o)| && PhashList(paths, o)[a].path == paths[i] &&
                        PhashList(paths, o)[a].fp == o.phash(paths[i]).value
  {
    var idx := Origins(paths, o.phash);
    assert i in idx;
    var a :| 0 <= a < |idx| && idx[a] == i;
    assert PhashList(paths, o)[a].path == paths[i];
  }

  /** Only paths visited by the scan are absorbed, and only ones with a hash. */
  lemma AbsorbedHasHash(paths: seq<Path>, o: Oracles, p: Path)
    requires VisuallyAbsorbed(paths, o, p)
    ensures p in paths && o.phash(p).Some?
  {
    var l := PhashList(paths, o);
    var gs := Clusters(l, Threshold);
    var a, x :| 0 <= a < |gs| && 1 <= x < |gs[a]| && l[gs[a][x]].path == p;
    CandidateOrigin(paths, o, gs[a][x]);
  }

  /** Every moved path is a later member of a content group or an absorbed visual
      follower. */
  lemma PlanSound(paths: seq<Path>, o: Oracles, p: Path)
    requires p in Plan(paths, o)
    ensures ContentTwinBefore(paths, o, p) || VisuallyAbsorbed(paths, o, p)
  {
    var hashMap := GroupedBy(paths, o.digest);
    var visualMap := VisualMap(PhashList(paths, o), Threshold, o.render);
    RemovedIffFlagged([hashMap, visualMap], p);
    LaterInGroup(paths, o.digest, p);
    if FlaggedIn(visualMap, p) {
      var e, k :| 0 <= e < |visualMap| && 1 <= k < |visualMap[e].files| && visualMap[e].files[k] == p;
      VisualMapListsFollowers(PhashList(paths, o), Threshold, o.render, e, k);
    }
  }

  /** A path preceded by a path with the same digest is moved. */
  lemma ContentTwinMoved(paths: seq<Path>, o: Oracles, p: Path)
    requires ContentTwinBefore(paths, o, p)
    ensures p in Plan(paths, o)
  {
    var hashMap := GroupedBy(paths, o.digest);
    var visualMap := VisualMap(PhashList(paths, o), Threshold, o.render);
    LaterInGroup(paths, o.digest, p);
    assert FlaggedIn([hashMap, visualMap][0], p);
    RemovedIffFlagged([hashMap, visualMap], p);
  }

  /** When no visual group is overwritten, every absorbed follower is moved. */
  lemma AbsorbedMoved(paths: seq<Path>, o: Oracles, p: Path)
    requires Distinct(paths)
    requires forall u, v :: o.render(u) == o.render(v) ==> u == v
    requires VisuallyAbsorbed(paths, o, p)
    ensures p in Plan(paths, o)
  {
    var l := PhashList(paths, o);
    var hashMap := GroupedBy(paths, o.digest);
    var visualMap := VisualMap(l, Threshold, o.render);
    FingerprintedDistinct(paths, o.phash);
    FollowersListed(l, Threshold, o.render, p);
    assert FlaggedIn([hashMap, visualMap][1], p);
    RemovedIffFlagged([hashMap, visualMap], p);
  }

  /** The moved paths are exactly the paths preceded by a path with the same
      content and the followers of visual groups, when the scan lists no path twice
      and distinct perceptual hashes have distinct text forms. */
  lemma PlanIff(paths: seq<Path>, o: Oracles, p: Path)
    requires Distinct(paths)
    requires forall u, v :: o.render(u) == o.render(v) ==> u == v
    ensures p in Plan(paths, o) <==> ContentTwinBefore(paths, o, p) || VisuallyAbsorbed(paths, o, p)
  {
    if p in Plan(paths, o) {
      PlanSound(paths, o, p);
    }
    if ContentTwinBefore(paths, o, p) {
      ContentTwinMoved(paths, o, p);
    }
    if VisuallyAbsorbed(paths, o, p) {
      AbsorbedMoved(paths, o, p);
    }
  }

  /** Every moved path was scanned, and an earlier scanned path stays its witness:
      one with the same content, or one whose perceptual hash is within the
      threshold of its own. */
  lemma MovedHasEarlierDuplicate(paths: seq<Path>, o: Oracles, p: Path)
    requires p in Plan(paths, o)
    ensures exists i, j :: 0 <= i < j < |paths| && paths[j] == p &&
                           (|| o.digest(paths[i]) == o.digest(p)
                            || (&& o.phash(paths[i]).Some? && o.phash(p).Some?
                                && Hamming(o.phash(paths[i]).value, o.phash(p).value) <= Threshold))
  {
    PlanSound(paths, o, p);
    if !ContentTwinBefore(paths, o, p) {
      var l := PhashList(paths, o);
      var gs := Clusters(l, Threshold);
      var a, x :| 0 <= a < |gs| && 1 <= x < |gs[a]| && l[gs[a][x]].path == p;
      ClusterShape(l, Threshold, a);
      var idx := Origins(paths, o.phash);
      var i, j := idx[gs[a][0]], idx[gs[a][x]];
      assert gs[a][0] < gs[a][x];
      assert i < j && paths[j] == p;
    }
  }

  /** With no content twin and no perceptual hash, a path is never moved, however
      many scanned paths share its file name: name-only duplicates stay in place. */
  lemma NameOnlyDuplicatesKept(paths: seq<Path>, o: Oracles, p: Path)
    requires Distinct(paths)
    requires forall q :: q in paths && q != p ==> o.digest(q) != o.digest(p)
    requires o.phash(p).None?
    ensures p !in Plan(paths, o)
  {
    forall i, j | 0 <= i < j < |paths| && paths[j] == p
      ensures o.digest(paths[i]) != o.digest(p)
    {
      assert paths[i] != paths[j];
    }
    if VisuallyAbsorbed(paths, o, p) {
      AbsorbedHasHash(paths, o, p);
      assert false;
    }
    if p in Plan(paths, o) {
      PlanSound(paths, o, p);
      assert false;
    }
  }

  /** The first file of a content group is not among the files the content map
      removes. */
  lemma HashGroupFirstKept(paths: seq<Path>, o: Oracles, e: nat)
    requires Distinct(paths)
    requires e < |GroupedBy(paths, o.digest)|
    ensures GroupedBy(paths, o.digest)[e].files != []
    ensures GroupedBy(paths, o.digest)[e].files[0] !in RemovedIn(GroupedBy(paths, o.digest))
  {
    GroupContents(paths, o.digest, e);
    GroupedBySharesNoPath(paths, o.digest);
    FirstKeptWithinMap(GroupedBy(paths, o.digest), e);
  }

  /** The seed of a visual group is not among the files the visual map removes. */
  lemma VisualGroupFirstKept(paths: seq<Path>, o: Oracles, e: nat)
    requires Distinct(paths)
    requires e < |VisualMap(PhashList(paths, o), Threshold, o.render)|
    ensures var visualMap := VisualMap(PhashList(paths, o), Threshold, o.render);
            |visualMap[e].files| >= 2 && visualMap[e].files[0] !in RemovedIn(visualMap)
  {
    var l := PhashList(paths, o);
    FingerprintedDistinct(paths, o.phash);
    VisualMapEntries(l, Threshold, o.render, e);
    VisualMapSharesNoPath(l, Threshold, o.render);
    FirstKeptWithinMap(VisualMap(l, Threshold, o.render), e);
  }

  /** The first scanned path is never moved, so a non-empty scan always keeps a
      file. */
  lemma FirstScannedKept(paths: seq<Path>, o: Oracles)
    requires Distinct(paths)
    requires |paths| > 0
    ensures paths[0] !in Plan(paths, o)
  {
    if paths[0] in Plan(paths, o) {
      MovedHasEarlierDuplicate(paths, o, paths[0]);
      assert false;
    }
  }

  // ---------------------------------------------------------------------------
  // Running again on what is left

  /** Two kept paths with a perceptual hash are more than the threshold apart. */
  lemma KeptFarApart(paths: seq<Path>, o: Oracles, i: nat, j: nat)
    requires Distinct(paths)
    requires forall u, v :: o.render(u) == o.render(v) ==> u == v
    requires i < |paths| && j < |paths| && i != j
    requires o.phash(paths[i]).Some? && o.phash(paths[j]).Some?
    requires paths[i] !in Plan(paths, o) && paths[j] !in Plan(paths, o)
    ensures Hamming(o.phash(paths[i]).value, o.phash(paths[j]).value) > Threshold
  {
    var l := PhashList(paths, o);
    FingerprintedDistinct(paths, o.phash);
    InPhashList(paths, o, i);
    InPhashList(paths, o, j);
    var u :| 0 <= u < |l| && l[u].path == paths[i] && l[u].fp == o.phash(paths[i]).value;
    var v :| 0 <= v < |l| && l[v].path == paths[j] && l[v].fp == o.phash(paths[j]).value;
    PlanIff(paths, o, paths[i]);
    PlanIff(paths, o, paths[j]);
    assert u != v;
    if u < v {
      SurvivorsFarApart(l, Threshold, u, v);
    } else {
      SurvivorsFarApart(l, Threshold, v, u);
      HammingSymmetric(l[u].fp, l[v].fp);
    }
  }

  /** Two kept paths have different content. */
  lemma KeptDiffer(paths: seq<Path>, o: Oracles, i: nat, j: nat)
    requires i < j < |paths|
    requires paths[j] !in Plan(paths, o)
    ensures o.digest(paths[i]) != o.digest(paths[j])
  {
    if o.digest(paths[i]) == o.digest(paths[j]) {
      ContentTwinMoved(paths, o, paths[j]);
    }
  }

  /** Scanning the files that were not moved, in any order, finds nothing more to
      move: among them no two have the same content and no two are visually
      similar. This is a rescan of the survivors only. A real second run of the
      script differs: the backup folder lies inside the scanned directory, so the
      walk finds the moved copies again. */
  lemma SecondRunMovesNothing(paths: seq<Path>, o: Oracles, survivors: seq<Path>)
    requires Distinct(paths) && Distinct(survivors)
    requires forall u, v :: o.render(u) == o.render(v) ==> u == v
    requires forall p :: p in survivors <==> p in paths && p !in Plan(paths, o)
    ensures Plan(survivors, o) == {}
  {
    forall p | p in Plan(survivors, o) ensures false {
      MovedHasEarlierDuplicate(survivors, o, p);
      var i, j :| 0 <= i < j < |survivors| && survivors[j] == p &&
                  (|| o.digest(survivors[i]) == o.digest(p)
                   || (&& o.phash(survivors[i]).Some? && o.phash(p).Some?
                       && Hamming(o.phash(survivors[i]).value, o.phash(p).value) <= Threshold));
      var q := survivors[i];
      assert q in survivors && p in survivors && q != p;
      var iq :| 0 <= iq < |paths| && paths[iq] == q;
      var ip :| 0 <= ip < |paths| && paths[ip] == p;
      if o.digest(q) == o.digest(p) {
        if iq < ip {
          KeptDiffer(paths, o, iq, ip);
        } else {
          KeptDiffer(paths, o, ip, iq);
        }
      } else {
        KeptFarApart(paths, o, iq, ip);
      }
    }
  }

  // ---------------------------------------------------------------------------
  // What the report lists

  /** In a grouping of distinct paths, a path reported under its own key has a
      scanned twin with that key. */
  lemma GroupedRowSound(kind: string, paths: seq<Path>, key: Path -> string, p: Path)
    requires Distinct(paths)
    requires ReportedIn(kind, GroupedBy(paths, key), Row(kind, key(p), p))
    ensures p in paths && exists q :: q in paths && q != p && key(q) == key(p)
  {
    var d := GroupedBy(paths, key);
    var e, k :| 0 <= e < |d| && |d[e].files| > 1 && 0 <= k < |d[e].files| &&
                Row(kind, key(p), p) == Row(kind, d[e].key, d[e].files[k]);
    GroupFiles(paths, key, e);
    SelectTwin(paths, key, d[e].key, k);
  }

  /** A scanned path with a twin of the same key is reported under that key. */
  lemma GroupedRowComplete(kind: string, paths: seq<Path>, key: Path -> string, p: Path, q: Path)
    requires p in paths && q in paths && q != p && key(q) == key(p)
    ensures ReportedIn(kind, GroupedBy(paths, key), Row(kind, key(p), p))
  {
    var d := GroupedBy(paths, key);
    var sel := Select(paths, key, key(p));
    SelectMember(paths, key, key(p), p);
    SelectMember(paths, key, key(p), q);
    GroupOf(paths, key, key(p));
    var e :| 0 <= e < |d| && d[e].key == key(p) && d[e].files == sel;
    var k :| 0 <= k < |sel| && sel[k] == p;
    var k' :| 0 <= k' < |sel| && sel[k'] == q;
    assert k != k';
    assert Row(kind, key(p), p) == Row(kind, d[e].key, d[e].files[k]);
  }

  /** In a grouping of distinct paths, a path is reported under its own key exactly
      when another scanned path has the same key. */
  lemma GroupedRowIff(kind: string, paths: seq<Path>, key: Path -> string, p: Path)
    requires Distinct(paths)
    ensures ReportedIn(kind, GroupedBy(paths, key), Row(kind, key(p), p)) <==>
              p in paths && exists q :: q in paths && q != p && key(q) == key(p)
  {
    if ReportedIn(kind, GroupedBy(paths, key), Row(kind, key(p), p)) {
      GroupedRowSound(kind, paths, key, p);
    }
    if p in paths && exists q :: q in paths && q != p && key(q) == key(p) {
      var q :| q in paths && q != p && key(q) == key(p);
      GroupedRowComplete(kind, paths, key, p, q);
    }
  }

  /** The report lists a path under `Nome` exactly when another scanned path has the
      same file name. */
  lemma ReportedNameTwins(paths: seq<Path>, o: Oracles, p: Path)
    requires Distinct(paths)
    ensures Row("Nome", Basename(p), p) in Rows(Report(paths, o)) <==>
              p in paths && exists q :: q in paths && q != p && Basename(q) == Basename(p)
  {
    var dups := Report(paths, o);
    var r := Row("Nome", Basename(p), p);
    RowsIff(dups, r);
    GroupedRowIff("Nome", paths, Basename, p);
    assert !ReportedIn(dups[1].0, dups[1].1, r) && !ReportedIn(dups[2].0, dups[2].1, r);
    assert Reported(dups, r) <==> ReportedIn("Nome", dups[0].1, r);
  }

  /** The report lists a path under `Hash` exactly when another scanned path has the
      same content. */
  lemma ReportedContentTwins(paths: seq<Path>, o: Oracles, p: Path)
    requires Distinct(paths)
    ensures Row("Hash", o.digest(p), p) in Rows(Report(paths, o)) <==>
              p in paths && exists q :: q in paths && q != p && o.digest(q) == o.digest(p)
  {
    var dups := Report(paths, o);
    var r := Row("Hash", o.digest(p), p);
    RowsIff(dups, r);
    GroupedRowIff("Hash", paths, o.digest, p);
    assert !ReportedIn(dups[0].0, dups[0].1, r) && !ReportedIn(dups[2].0, dups[2].1, r);
    assert Reported(dups, r) <==> ReportedIn("Hash", dups[1].1, r);
  }
}
