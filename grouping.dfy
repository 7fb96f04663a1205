/** The first loop of `detect_duplicates` as specification functions: grouping the
    scanned paths by a key (basename or content digest) and collecting the paths that
    have a perceptual hash. */
module Grouping {
  import opened Common
  import opened Dicts
  import opened Fingerprints

  /** An element of `phash_list`: a path together with its perceptual hash. */
  datatype Candidate = Candidate(fp: Fingerprint, path: Path)

  ghost predicate Increasing(s: seq<nat>)
  {
    forall a, b :: 0 <= a < b < |s| ==> s[a] < s[b]
  }

  /** The paths whose key is `k`, in input order. */
  function Select(paths: seq<Path>, key: Path -> string, k: string): (r: seq<Path>)
    ensures |r| <= |paths|
  {
    if paths == [] then []
    else
      var n := |paths| - 1;
      var r := Select(paths[..n], key, k);
      assert paths == paths[..n] + [paths[n]];
      if key(paths[n]) == k then r + [paths[n]] else r
  }

  /** `Select` keeps exactly the paths whose key is `k`. */
  lemma {:induction false} SelectMember(paths: seq<Path>, key: Path -> string, k: string, p: Path)
    ensures p in Select(paths, key, k) <==> p in paths && key(p) == k
  {
    if paths != [] {
      var n := |paths| - 1;
      SelectMember(paths[..n], key, k, p);
      assert paths == paths[..n] + [paths[n]];
    }
  }

  /** The positions in `paths` of the paths whose key is `k`. */
  ghost function Positions(paths: seq<Path>, key: Path -> string, k: string): seq<nat>
  {
    if paths == [] then []
    else
      var n := |paths| - 1;
      if key(paths[n]) == k then Positions(paths[..n], key, k) + [n] else Positions(paths[..n], key, k)
  }

  /** `Positions` lists, in order, the positions of the paths that `Select` keeps. */
  lemma {:induction false} PositionsSelect(paths: seq<Path>, key: Path -> string, k: string)
    ensures var idx := Positions(paths, key, k);
            var sel := Select(paths, key, k);
            && |idx| == |sel|
            && forall a :: 0 <= a < |idx| ==> idx[a] < |paths| && paths[idx[a]] == sel[a] && key(sel[a]) == k
  {
    if paths != [] {
      var n := |paths| - 1;
      var front := paths[..n];
      PositionsSelect(front, key, k);
      assert forall i :: 0 <= i < n ==> front[i] == paths[i];
      if key(paths[n]) == k {
        assert Positions(paths, key, k) == Positions(front, key, k) + [n];
        assert Select(paths, key, k) == Select(front, key, k) + [paths[n]];
      } else {
        assert Positions(paths, key, k) == Positions(front, key, k);
        assert Select(paths, key, k) == Select(front, key, k);
      }
    }
  }

  /** The positions are increasing and include every position whose path has key `k`,
      so a group lists its paths in input order. */
  lemma {:induction false} PositionsOrdered(paths: seq<Path>, key: Path -> string, k: string)
    ensures var idx := Positions(paths, key, k);
            && Increasing(idx)
            && (forall a :: 0 <= a < |idx| ==> idx[a] < |paths|)
            && (forall i :: 0 <= i < |paths| && key(paths[i]) == k ==> i in idx)
  {
    if paths != [] {
      var n := |paths| - 1;
      var front := paths[..n];
      PositionsOrdered(front, key, k);
      assert forall i :: 0 <= i < n ==> front[i] == paths[i];
    }
  }

  /** A path kept after the first one is preceded in the input by a path of the
      same key. */
  lemma SelectLater(paths: seq<Path>, key: Path -> string, k: string, b: nat)
    requires 1 <= b < |Select(paths, key, k)|
    ensures exists i, j :: 0 <= i < j < |paths| && paths[j] == Select(paths, key, k)[b] &&
                           key(paths[i]) == key(paths[j])
  {
    var sel := Select(paths, key, k);
    var idx := Positions(paths, key, k);
    PositionsSelect(paths, key, k);
    PositionsOrdered(paths, key, k);
    var i, j := idx[0], idx[b];
    assert i < j;
    assert paths[j] == sel[b] && paths[i] == sel[0];
  }

  /** A path preceded by a path of the same key is kept after the first one. */
  lemma SelectEarlier(paths: seq<Path>, key: Path -> string, i: nat, j: nat)
    requires i < j < |paths| && key(paths[i]) == key(paths[j])
    ensures exists b :: 1 <= b < |Select(paths, key, key(paths[j]))| &&
                        Select(paths, key, key(paths[j]))[b] == paths[j]
  {
    var k := key(paths[j]);
    var idx := Positions(paths, key, k);
    PositionsSelect(paths, key, k);
    PositionsOrdered(paths, key, k);
    var a :| 0 <= a < |idx| && idx[a] == i;
    var b :| 0 <= b < |idx| && idx[b] == j;
    assert a < b;
  }

  /** Among distinct paths, a selection of more than one path gives each member a
      different path of the same key. */
  lemma SelectTwin(paths: seq<Path>, key: Path -> string, k: string, b: nat)
    requires Distinct(paths)
    requires b < |Select(paths, key, k)| && |Select(paths, key, k)| > 1
    ensures var p := Select(paths, key, k)[b];
            p in paths && exists q :: q in paths && q != p && key(q) == key(p)
  {
    var sel := Select(paths, key, k);
    var idx := Positions(paths, key, k);
    PositionsSelect(paths, key, k);
    PositionsOrdered(paths, key, k);
    var c := if b == 0 then 1 else 0;
    assert paths[idx[b]] == sel[b] && paths[idx[c]] == sel[c];
    assert idx[b] != idx[c];
    assert key(sel[c]) == k && key(sel[b]) == k;
  }

  /** The dictionary built by `d[key(path)].append(path)` for every path in turn. */
  function GroupedBy(paths: seq<Path>, key: Path -> string): (d: Dict)
  {
    if paths == [] then []
    else
      var n := |paths| - 1;
      Append(GroupedBy(paths[..n], key), key(paths[n]), paths[n])
  }

  /** Grouping one more path appends it under its key. */
  lemma GroupedBySnoc(paths: seq<Path>, key: Path -> string, p: Path)
    ensures GroupedBy(paths + [p], key) == Append(GroupedBy(paths, key), key(p), p)
  {
    assert (paths + [p])[..|paths|] == paths;
  }

  /** The list under every key is the input filtered by that key, in input order. */
  lemma {:induction false} GroupedByLookup(paths: seq<Path>, key: Path -> string, k: string)
    ensures Lookup(GroupedBy(paths, key), k) == Select(paths, key, k)
  {
    if paths != [] {
      var n := |paths| - 1;
      GroupedByLookup(paths[..n], key, k);
      AppendLookup(GroupedBy(paths[..n], key), key(paths[n]), paths[n], k);
    }
  }

  /** No key occurs twice. */
  lemma {:induction false} GroupedByWellFormed(paths: seq<Path>, key: Path -> string)
    ensures WellFormed(GroupedBy(paths, key))
  {
    if paths != [] {
      var n := |paths| - 1;
      GroupedByWellFormed(paths[..n], key);
      AppendWellFormed(GroupedBy(paths[..n], key), key(paths[n]), paths[n]);
    }
  }

  /** The keys are exactly the keys of the input paths. */
  lemma {:induction false} GroupedByKeys(paths: seq<Path>, key: Path -> string, k: string)
    ensures k in Keys(GroupedBy(paths, key)) <==> exists i :: 0 <= i < |paths| && key(paths[i]) == k
  {
    if paths != [] {
      var n := |paths| - 1;
      var front := paths[..n];
      GroupedByKeys(front, key, k);
      AppendKeys(GroupedBy(front, key), key(paths[n]), paths[n]);
      if k in Keys(GroupedBy(paths, key)) && k != key(paths[n]) {
        var i :| 0 <= i < n && key(front[i]) == k;
        assert paths[i] == front[i];
      }
      if i :| 0 <= i < |paths| && key(paths[i]) == k {
        if i < n {
          assert front[i] == paths[i];
        }
      }
    }
  }

  /** Appending `p` to a dictionary that holds `front` makes it hold `front + [p]`. */
  lemma PartitionStep(d0: Dict, front: seq<Path>, k: string, p: Path)
    requires multiset(Flatten(d0)) == multiset(front)
    ensures multiset(Flatten(Append(d0, k, p))) == multiset(front + [p])
  {
    AppendFlatten(d0, k, p);
  }

  /** Grouping loses and invents nothing: all groups together hold exactly the input
      paths, each as often as it occurs in the input. */
  lemma {:induction false} GroupedByPartition(paths: seq<Path>, key: Path -> string)
    ensures multiset(Flatten(GroupedBy(paths, key))) == multiset(paths)
  {
    if paths != [] {
      var n := |paths| - 1;
      var front, p := paths[..n], paths[n];
      GroupedByPartition(front, key);
      PartitionStep(GroupedBy(front, key), front, key(p), p);
      assert paths == front + [p];
    }
  }

  /** Every group holds exactly the input paths of its key, in input order. */
  lemma GroupFiles(paths: seq<Path>, key: Path -> string, g: nat)
    requires g < |GroupedBy(paths, key)|
    ensures GroupedBy(paths, key)[g].files == Select(paths, key, GroupedBy(paths, key)[g].key)
  {
    GroupedByWellFormed(paths, key);
    LookupEntry(GroupedBy(paths, key), g);
    GroupedByLookup(paths, key, GroupedBy(paths, key)[g].key);
  }

  /** Every group holds exactly the input paths of its key, in input order, and is
      non-empty. */
  lemma GroupContents(paths: seq<Path>, key: Path -> string, g: nat)
    requires g < |GroupedBy(paths, key)|
    ensures GroupedBy(paths, key)[g].files == Select(paths, key, GroupedBy(paths, key)[g].key)
    ensures GroupedBy(paths, key)[g].files != []
  {
    var d := GroupedBy(paths, key);
    var k := d[g].key;
    GroupFiles(paths, key, g);
    GroupedByKeys(paths, key, k);
    assert Keys(d)[g] == k;
    var i :| 0 <= i < |paths| && key(paths[i]) == k;
    SelectMember(paths, key, k, paths[i]);
  }

  /** The group of key `k`, when some path has that key. */
  lemma GroupOf(paths: seq<Path>, key: Path -> string, k: string)
    requires Select(paths, key, k) != []
    ensures var d := GroupedBy(paths, key);
            exists e :: 0 <= e < |d| && d[e].key == k && d[e].files == Select(paths, key, k)
  {
    GroupedByWellFormed(paths, key);
    GroupedByLookup(paths, key, k);
    LookupFound(GroupedBy(paths, key), k);
  }

  /** Every input path lies in the group of its own key and in no other group. */
  lemma ExactlyOneGroup(paths: seq<Path>, key: Path -> string, p: Path)
    requires p in paths
    ensures var d := GroupedBy(paths, key);
            exists g :: 0 <= g < |d| && d[g].key == key(p) && p in d[g].files &&
                        forall h :: 0 <= h < |d| && h != g ==> p !in d[h].files
  {
    var d := GroupedBy(paths, key);
    GroupedByWellFormed(paths, key);
    SelectMember(paths, key, key(p), p);
    GroupOf(paths, key, key(p));
    var g :| 0 <= g < |d| && d[g].key == key(p) && d[g].files == Select(paths, key, key(p));
    forall h | 0 <= h < |d| && h != g ensures p !in d[h].files {
      GroupFiles(paths, key, h);
      SelectMember(paths, key, d[h].key, p);
      assert d[h].key != d[g].key;
    }
  }

  /** Among distinct paths, a selection lists each path at most once. */
  lemma SelectDistinct(paths: seq<Path>, key: Path -> string, k: string, x: nat, y: nat)
    requires Distinct(paths)
    requires x < y < |Select(paths, key, k)|
    ensures Select(paths, key, k)[x] != Select(paths, key, k)[y]
  {
    var idx := Positions(paths, key, k);
    PositionsSelect(paths, key, k);
    PositionsOrdered(paths, key, k);
    assert idx[x] < idx[y];
  }

  /** A grouping of distinct paths puts no path in two groups and no path twice in
      one group. */
  lemma GroupedBySharesNoPath(paths: seq<Path>, key: Path -> string)
    requires Distinct(paths)
    ensures SharesNoPath(GroupedBy(paths, key))
  {
    var d := GroupedBy(paths, key);
    forall a, b, x, y | 0 <= a < |d| && 0 <= b < |d| && 0 <= x < |d[a].files| && 0 <= y < |d[b].files| && (a != b || x != y)
      ensures d[a].files[x] != d[b].files[y]
    {
      GroupFiles(paths, key, a);
      GroupFiles(paths, key, b);
      if a == b {
        if x < y {
          SelectDistinct(paths, key, d[a].key, x, y);
        } else {
          SelectDistinct(paths, key, d[a].key, y, x);
        }
      } else if d[a].files[x] == d[b].files[y] {
        var p := d[a].files[x];
        SelectMember(paths, key, d[a].key, p);
        SelectMember(paths, key, d[b].key, p);
        GroupedByWellFormed(paths, key);
        assert false;
      }
    }
  }

  /** The position of a later member of a group is preceded by the position of
      the group's first member, which has the same key. */
  lemma LaterMemberHasEarlier(paths: seq<Path>, key: Path -> string, e: nat, k: nat)
    requires e < |GroupedBy(paths, key)| && 1 <= k < |GroupedBy(paths, key)[e].files|
    ensures exists i, j :: 0 <= i < j < |paths| && paths[j] == GroupedBy(paths, key)[e].files[k] &&
                           key(paths[i]) == key(paths[j])
  {
    GroupFiles(paths, key, e);
    SelectLater(paths, key, GroupedBy(paths, key)[e].key, k);
  }

  /** A path preceded by a path of the same key is a later member of its group. */
  lemma EarlierMakesLater(paths: seq<Path>, key: Path -> string, i: nat, j: nat)
    requires i < j < |paths| && key(paths[i]) == key(paths[j])
    ensures var d := GroupedBy(paths, key);
            exists e, k :: 0 <= e < |d| && 1 <= k < |d[e].files| && d[e].files[k] == paths[j]
  {
    var d := GroupedBy(paths, key);
    var K := key(paths[j]);
    var sel := Select(paths, key, K);
    SelectEarlier(paths, key, i, j);
    var b :| 1 <= b < |sel| && sel[b] == paths[j];
    GroupOf(paths, key, K);
    var e :| 0 <= e < |d| && d[e].key == K && d[e].files == sel;
    assert d[e].files[b] == paths[j];
  }

  /** A path is a later member (not the first) of some group exactly when an earlier
      input path has the same key. */
  lemma LaterInGroup(paths: seq<Path>, key: Path -> string, p: Path)
    ensures var d := GroupedBy(paths, key);
            (exists e, k :: 0 <= e < |d| && 1 <= k < |d[e].files| && d[e].files[k] == p) <==>
            (exists i, j :: 0 <= i < j < |paths| && paths[j] == p && key(paths[i]) == key(p))
  {
    var d := GroupedBy(paths, key);
    if e, k :| 0 <= e < |d| && 1 <= k < |d[e].files| && d[e].files[k] == p {
      LaterMemberHasEarlier(paths, key, e, k);
    }
    if i, j :| 0 <= i < j < |paths| && paths[j] == p && key(paths[i]) == key(p) {
      EarlierMakesLater(paths, key, i, j);
    }
  }

  /** `phash_list`: the paths whose perceptual hash could be computed, with that
      hash, in input order. */
  function Fingerprinted(paths: seq<Path>, phash: Path -> Option<Fingerprint>): (l: seq<Candidate>)
    ensures |l| <= |paths|
  {
    if paths == [] then []
    else
      var n := |paths| - 1;
      var l := Fingerprinted(paths[..n], phash);
      match phash(paths[n])
      case Some(fp) => l + [Candidate(fp, paths[n])]
      case None => l
  }

  /** Scanning one more path adds it at the end of `phash_list` when it has a
      perceptual hash. */
  lemma FingerprintedSnoc(paths: seq<Path>, phash: Path -> Option<Fingerprint>, p: Path)
    ensures Fingerprinted(paths + [p], phash) ==
              if phash(p).Some? then Fingerprinted(paths, phash) + [Candidate(phash(p).value, p)]
              else Fingerprinted(paths, phash)
  {
    assert (paths + [p])[..|paths|] == paths;
  }

  /** The positions in `paths` from which `phash_list` was taken: exactly the paths
      that have a perceptual hash, in increasing order. */
  ghost function Origins(paths: seq<Path>, phash: Path -> Option<Fingerprint>): (idx: seq<nat>)
    ensures |idx| == |Fingerprinted(paths, phash)|
    ensures Increasing(idx)
    ensures forall a :: 0 <= a < |idx| ==>
              && idx[a] < |paths|
              && paths[idx[a]] == Fingerprinted(paths, phash)[a].path
              && phash(paths[idx[a]]) == Some(Fingerprinted(paths, phash)[a].fp)
    ensures forall i :: 0 <= i < |paths| && phash(paths[i]).Some? ==> i in idx
  {
    if paths == [] then []
    else
      var n := |paths| - 1;
      var idx := Origins(paths[..n], phash);
      var front := Fingerprinted(paths[..n], phash);
      assert Fingerprinted(paths, phash) == if phash(paths[n]).Some? then front + [Candidate(phash(paths[n]).value, paths[n])] else front;
      assert forall i :: 0 <= i < n ==> paths[..n][i] == paths[i];
      if phash(paths[n]).Some? then idx + [n] else idx
  }

  ghost predicate DistinctPaths(l: seq<Candidate>)
  {
    forall a, b :: 0 <= a < b < |l| ==> l[a].path != l[b].path
  }

  ghost predicate Distinct(paths: seq<Path>)
  {
    forall a, b :: 0 <= a < b < |paths| ==> paths[a] != paths[b]
  }

  /** Distinct scanned paths give a `phash_list` with distinct paths. */
  lemma FingerprintedDistinct(paths: seq<Path>, phash: Path -> Option<Fingerprint>)
    requires Distinct(paths)
    ensures DistinctPaths(Fingerprinted(paths, phash))
  {
    var l := Fingerprinted(paths, phash);
    var idx := Origins(paths, phash);
    forall a, b | 0 <= a < b < |l| ensures l[a].path != l[b].path {
      assert paths[idx[a]] == l[a].path && paths[idx[b]] == l[b].path;
    }
  }
}
