/** The greedy visual clustering of `detect_duplicates` (detect_duplicates.py lines
    52-66).

    Groups are handled by their positions in `phash_list`; `Members` turns a group of
    positions into the list of paths the script stores. `Scan` and `Sweep` are the
    inner and the outer loop written as tail-recursive functions over the loop state;
    `ClusterVisual` is the loop itself, proved to compute `VisualMap`. */
module Clustering {
  import opened Common
  import opened Dicts
  import opened Fingerprints
  import opened Grouping

  /** The state after a seed's inner scan: its group so far and the visited paths. */
  datatype Scanned = Scanned(group: seq<nat>, visited: set<Path>)

  /** The state of the outer loop: the visited paths and the groups kept so far. */
  datatype Swept = Swept(visited: set<Path>, groups: seq<seq<nat>>)

  ghost predicate InRange(l: seq<Candidate>, g: seq<nat>)
  {
    forall k :: 0 <= k < |g| ==> g[k] < |l|
  }

  ghost predicate AllInRange(l: seq<Candidate>, gs: seq<seq<nat>>)
  {
    forall a :: 0 <= a < |gs| ==> |gs[a]| > 0 && InRange(l, gs[a])
  }

  /** The paths at the positions of `g`, in the order of `g`. */
  function Members(l: seq<Candidate>, g: seq<nat>): (ps: seq<Path>)
    requires InRange(l, g)
    ensures |ps| == |g|
    ensures forall k {:trigger ps[k]} :: 0 <= k < |g| ==> ps[k] == l[g[k]].path
  {
    if g == [] then [] else Members(l, g[..|g| - 1]) + [l[g[|g| - 1]].path]
  }

  /** The inner loop `for j in range(i + 1, len(phash_list))` of seed `i`, from
      position `j` on: an unvisited entry within distance `t` of the seed joins the
      group and is marked visited. */
  ghost function Scan(l: seq<Candidate>, t: int, i: nat, j: nat, visited: set<Path>, g: seq<nat>): (r: Scanned)
    requires i < |l| && j <= |l|
    requires |g| > 0 && InRange(l, g)
    ensures |r.group| > 0 && InRange(l, r.group) && r.group[0] == g[0]
    decreases |l| - j
  {
    if j == |l| then Scanned(g, visited)
    else if l[j].path in visited then Scan(l, t, i, j + 1, visited, g)
    else if Hamming(l[i].fp, l[j].fp) <= t then Scan(l, t, i, j + 1, visited + {l[j].path}, g + [j])
    else Scan(l, t, i, j + 1, visited, g)
  }

  /** The outer loop from position `i` on: a visited entry is skipped, any other one
      seeds a group, which is kept when it has more than one member. */
  ghost function Sweep(l: seq<Candidate>, t: int, i: nat, visited: set<Path>, gs: seq<seq<nat>>): (r: Swept)
    requires i <= |l|
    requires AllInRange(l, gs)
    ensures AllInRange(l, r.groups)
    decreases |l| - i
  {
    if i == |l| then Swept(visited, gs)
    else if l[i].path in visited then Sweep(l, t, i + 1, visited, gs)
    else
      var s := Scan(l, t, i, i + 1, visited, [i]);
      Sweep(l, t, i + 1, s.visited, if |s.group| > 1 then gs + [s.group] else gs)
  }

  /** The groups of more than one member, in the order in which they were formed. */
  ghost function Clusters(l: seq<Candidate>, t: int): (gs: seq<seq<nat>>)
    ensures AllInRange(l, gs)
  {
    Sweep(l, t, 0, {}, []).groups
  }

  /** `visual_map[hash1] = group` for each kept group in turn. */
  function Publish(l: seq<Candidate>, render: Fingerprint -> string, gs: seq<seq<nat>>): (d: Dict)
    requires AllInRange(l, gs)
  {
    if gs == [] then []
    else
      var n := |gs| - 1;
      Assign(Publish(l, render, gs[..n]), render(l[gs[n][0]].fp), Members(l, gs[n]))
  }

  /** `visual_map` as the script leaves it. */
  ghost function VisualMap(l: seq<Candidate>, t: int, render: Fingerprint -> string): Dict
  {
    Publish(l, render, Clusters(l, t))
  }

  /** The loops of lines 52-66. */
  method ClusterVisual(l: seq<Candidate>, t: int, render: Fingerprint -> string) returns (visualMap: Dict)
    ensures visualMap == VisualMap(l, t, render)
  {
    var visited: set<Path> := {};
    ghost var groups: seq<seq<nat>> := [];
    visualMap := [];
    var i := 0;
    while i < |l|
      invariant 0 <= i <= |l|
      invariant AllInRange(l, groups)
      invariant Sweep(l, t, i, visited, groups) == Sweep(l, t, 0, {}, [])
      invariant visualMap == Publish(l, render, groups)
    {
      if l[i].path !in visited {
        ghost var visited0 := visited;
        var group := [l[i].path];
        ghost var g: seq<nat> := [i];
        var j := i + 1;
        while j < |l|
          invariant i + 1 <= j <= |l|
          invariant |g| > 0 && InRange(l, g) && g[0] == i
          invariant group == Members(l, g)
          invariant Scan(l, t, i, j, visited, g) == Scan(l, t, i, i + 1, visited0, [i])
        {
          if l[j].path !in visited {
            if Hamming(l[i].fp, l[j].fp) <= t {
              group := group + [l[j].path];
              g := g + [j];
              visited := visited + {l[j].path};
            }
          }
          j := j + 1;
        }
        if |group| > 1 {
          visualMap := Assign(visualMap, render(l[i].fp), group);
          groups := groups + [g];
        }
      }
      i := i + 1;
    }
  }

  // ---------------------------------------------------------------------------
  // What the pass guarantees

  /** A kept group: at least two members, the seed first, positions strictly
      increasing, and every follower within distance `t` of the seed. */
  ghost predicate IsCluster(l: seq<Candidate>, t: int, g: seq<nat>)
  {
    && |g| >= 2
    && InRange(l, g)
    && Increasing(g)
    && forall k :: 1 <= k < |g| ==> Hamming(l[g[0]].fp, l[g[k]].fp) <= t
  }

  /** No position belongs to two groups. */
  ghost predicate Disjoint(gs: seq<seq<nat>>)
  {
    forall a, b, x, y :: 0 <= a < |gs| && 0 <= b < |gs| && a != b && 0 <= x < |gs[a]| && 0 <= y < |gs[b]| ==>
      gs[a][x] != gs[b][y]
  }

  /** The paths of the followers (every member but the seed) of `g`. */
  ghost function FollowerPaths(l: seq<Candidate>, g: seq<nat>): set<Path>
  {
    set x | 1 <= x < |g| && g[x] < |l| :: l[g[x]].path
  }

  /** The paths of the followers of all groups. */
  ghost function AllFollowerPaths(l: seq<Candidate>, gs: seq<seq<nat>>): set<Path>
  {
    if gs == [] then {} else AllFollowerPaths(l, gs[..|gs| - 1]) + FollowerPaths(l, gs[|gs| - 1])
  }

  /** Position `j` was absorbed as a follower by some group. */
  ghost predicate IsFollower(gs: seq<seq<nat>>, j: nat)
  {
    exists a, x :: 0 <= a < |gs| && 1 <= x < |gs[a]| && gs[a][x] == j
  }

  lemma {:induction false} AllFollowerPathsMember(l: seq<Candidate>, gs: seq<seq<nat>>, p: Path)
    requires AllInRange(l, gs)
    ensures p in AllFollowerPaths(l, gs) <==>
              exists a, x :: 0 <= a < |gs| && 1 <= x < |gs[a]| && l[gs[a][x]].path == p
  {
    if gs != [] {
      var n := |gs| - 1;
      AllFollowerPathsMember(l, gs[..n], p);
      if p in AllFollowerPaths(l, gs) {
        if p in FollowerPaths(l, gs[n]) {
          var x :| 1 <= x < |gs[n]| && gs[n][x] < |l| && l[gs[n][x]].path == p;
        } else {
          var a, x :| 0 <= a < n && 1 <= x < |gs[..n][a]| && l[gs[..n][a][x]].path == p;
          assert gs[..n][a] == gs[a];
        }
      }
      if exists a, x :: 0 <= a < |gs| && 1 <= x < |gs[a]| && l[gs[a][x]].path == p {
        var a, x :| 0 <= a < |gs| && 1 <= x < |gs[a]| && l[gs[a][x]].path == p;
        if a < n {
          assert gs[..n][a] == gs[a];
        } else {
          assert p in FollowerPaths(l, gs[n]);
        }
      }
    }
  }

  /** The invariant of the inner scan of seed `i`, started with visited set `v0`. */
  ghost predicate ScanInv(l: seq<Candidate>, t: int, i: nat, j: nat, v0: set<Path>, visited: set<Path>, g: seq<nat>)
  {
    && i < j <= |l|
    && |g| >= 1 && g[0] == i && Increasing(g)
    && (forall k :: 0 <= k < |g| ==> g[k] < j)
    && (forall k :: 1 <= k < |g| ==> Hamming(l[i].fp, l[g[k]].fp) <= t && l[g[k]].path !in v0)
    && visited == v0 + FollowerPaths(l, g)
    && (forall k :: i < k < j && Hamming(l[i].fp, l[k].fp) <= t ==> l[k].path in visited)
  }

  /** Taking an unvisited entry within distance `t` keeps the scan's invariant. */
  lemma ScanTake(l: seq<Candidate>, t: int, i: nat, j: nat, v0: set<Path>, visited: set<Path>, g: seq<nat>)
    requires ScanInv(l, t, i, j, v0, visited, g)
    requires j < |l| && l[j].path !in visited && Hamming(l[i].fp, l[j].fp) <= t
    ensures ScanInv(l, t, i, j + 1, v0, visited + {l[j].path}, g + [j])
  {
    var g' := g + [j];
    assert forall x :: 0 <= x < |g| ==> g'[x] == g[x];
    assert FollowerPaths(l, g') == FollowerPaths(l, g) + {l[j].path} by {
      assert g'[|g|] == j;
    }
  }

  /** Passing over a visited or distant entry keeps the scan's invariant. */
  lemma ScanPass(l: seq<Candidate>, t: int, i: nat, j: nat, v0: set<Path>, visited: set<Path>, g: seq<nat>)
    requires ScanInv(l, t, i, j, v0, visited, g)
    requires j < |l| && (l[j].path in visited || Hamming(l[i].fp, l[j].fp) > t)
    ensures ScanInv(l, t, i, j + 1, v0, visited, g)
  {
  }

  lemma {:induction false} ScanSound(l: seq<Candidate>, t: int, i: nat, j: nat, v0: set<Path>, visited: set<Path>, g: seq<nat>)
    requires ScanInv(l, t, i, j, v0, visited, g)
    ensures var r := Scan(l, t, i, j, visited, g); ScanInv(l, t, i, |l|, v0, r.visited, r.group)
    decreases |l| - j
  {
    if j < |l| {
      if l[j].path !in visited && Hamming(l[i].fp, l[j].fp) <= t {
        ScanTake(l, t, i, j, v0, visited, g);
        assert Scan(l, t, i, j, visited, g) == Scan(l, t, i, j + 1, visited + {l[j].path}, g + [j]);
        ScanSound(l, t, i, j + 1, v0, visited + {l[j].path}, g + [j]);
      } else {
        ScanPass(l, t, i, j, v0, visited, g);
        assert Scan(l, t, i, j, visited, g) == Scan(l, t, i, j + 1, visited, g);
        ScanSound(l, t, i, j + 1, v0, visited, g);
      }
    }
  }

  /** The invariant of the outer loop before position `i`. */
  ghost predicate SweepInv(l: seq<Candidate>, t: int, i: nat, visited: set<Path>, gs: seq<seq<nat>>)
  {
    && i <= |l|
    && AllInRange(l, gs)
    && (forall a :: 0 <= a < |gs| ==> IsCluster(l, t, gs[a]) && gs[a][0] < i)
    && (forall a, b :: 0 <= a < b < |gs| ==> gs[a][0] < gs[b][0])
    && Disjoint(gs)
    && visited == AllFollowerPaths(l, gs)
    && (forall s, j :: 0 <= s < i && s < j < |l| && l[s].path !in visited && Hamming(l[s].fp, l[j].fp) <= t ==>
          l[j].path in visited)
  }

  /** One step of the outer loop on an unvisited seed keeps the invariant. */
  lemma SweepStep(l: seq<Candidate>, t: int, i: nat, visited: set<Path>, gs: seq<seq<nat>>)
    requires SweepInv(l, t, i, visited, gs)
    requires i < |l| && l[i].path !in visited
    ensures var s := Scan(l, t, i, i + 1, visited, [i]);
            SweepInv(l, t, i + 1, s.visited, if |s.group| > 1 then gs + [s.group] else gs)
  {
    var s := Scan(l, t, i, i + 1, visited, [i]);
    assert FollowerPaths(l, [i]) == {};
    assert ScanInv(l, t, i, i + 1, visited, visited, [i]);
    ScanSound(l, t, i, i + 1, visited, visited, [i]);
    if |s.group| > 1 {
      SweepExtend(l, t, i, visited, gs, s.group);
    } else {
      SweepDrop(l, t, i, visited, gs, s.group);
    }
  }

  /** Dropping the one-member group of seed `i` keeps the outer invariant: the scan
      found nothing within distance `t` that was still unvisited. */
  lemma SweepDrop(l: seq<Candidate>, t: int, i: nat, visited: set<Path>, gs: seq<seq<nat>>, g: seq<nat>)
    requires SweepInv(l, t, i, visited, gs)
    requires i < |l| && l[i].path !in visited
    requires ScanInv(l, t, i, |l|, visited, visited + FollowerPaths(l, g), g)
    requires |g| <= 1
    ensures SweepInv(l, t, i + 1, visited + FollowerPaths(l, g), gs)
  {
    assert FollowerPaths(l, g) == {};
    forall s, j | 0 <= s < i + 1 && s < j < |l| && l[s].path !in visited && Hamming(l[s].fp, l[j].fp) <= t
      ensures l[j].path in visited
    {
      if s == i {
        assert i < j < |l| && Hamming(l[i].fp, l[j].fp) <= t;
      }
    }
  }

  /** Skipping a visited entry keeps the outer invariant. */
  lemma SweepSkip(l: seq<Candidate>, t: int, i: nat, visited: set<Path>, gs: seq<seq<nat>>)
    requires SweepInv(l, t, i, visited, gs)
    requires i < |l| && l[i].path in visited
    ensures SweepInv(l, t, i + 1, visited, gs)
  {
    forall s, j | 0 <= s < i + 1 && s < j < |l| && l[s].path !in visited && Hamming(l[s].fp, l[j].fp) <= t
      ensures l[j].path in visited
    {
      assert s < i;
    }
  }

  /** Keeping the new group of seed `i` keeps the outer invariant. */
  lemma SweepExtend(l: seq<Candidate>, t: int, i: nat, visited: set<Path>, gs: seq<seq<nat>>, g: seq<nat>)
    requires SweepInv(l, t, i, visited, gs)
    requires i < |l| && l[i].path !in visited
    requires ScanInv(l, t, i, |l|, visited, visited + FollowerPaths(l, g), g)
    requires |g| > 1
    ensures SweepInv(l, t, i + 1, visited + FollowerPaths(l, g), gs + [g])
  {
    var gs' := gs + [g];
    var v' := visited + FollowerPaths(l, g);
    assert gs'[..|gs|] == gs;
    assert AllFollowerPaths(l, gs') == v';
    assert forall a :: 0 <= a < |gs| ==> gs'[a] == gs[a];
    assert IsCluster(l, t, g);
    ExtendDisjoint(l, t, i, visited, gs, g);
    forall s, j | 0 <= s < i + 1 && s < j < |l| && l[s].path !in v' && Hamming(l[s].fp, l[j].fp) <= t
      ensures l[j].path in v'
    {
    }
  }

  /** The new group of seed `i` shares no position with the earlier groups. */
  lemma ExtendDisjoint(l: seq<Candidate>, t: int, i: nat, visited: set<Path>, gs: seq<seq<nat>>, g: seq<nat>)
    requires SweepInv(l, t, i, visited, gs)
    requires i < |l| && l[i].path !in visited
    requires ScanInv(l, t, i, |l|, visited, visited + FollowerPaths(l, g), g)
    ensures Disjoint(gs + [g])
  {
    var gs' := gs + [g];
    forall a, b, x, y | 0 <= a < |gs'| && 0 <= b < |gs'| && a != b && 0 <= x < |gs'[a]| && 0 <= y < |gs'[b]|
      ensures gs'[a][x] != gs'[b][y]
    {
      if a < |gs| && b < |gs| {
        assert gs'[a] == gs[a] && gs'[b] == gs[b];
      } else if a < |gs| {
        DisjointFromNew(l, t, i, visited, gs, g, a, x, y);
      } else {
        DisjointFromNew(l, t, i, visited, gs, g, b, y, x);
      }
    }
  }

  /** A member of an earlier group is not a member of the new group of seed `i`. */
  lemma DisjointFromNew(l: seq<Candidate>, t: int, i: nat, visited: set<Path>, gs: seq<seq<nat>>, g: seq<nat>,
                        a: nat, x: nat, y: nat)
    requires SweepInv(l, t, i, visited, gs)
    requires i < |l| && l[i].path !in visited
    requires ScanInv(l, t, i, |l|, visited, visited + FollowerPaths(l, g), g)
    requires a < |gs| && x < |gs[a]| && y < |g|
    ensures gs[a][x] != g[y]
  {
    if x == 0 {
      assert gs[a][0] < i;
      if y > 0 {
        assert g[0] < g[y];
      }
    } else {
      AllFollowerPathsMember(l, gs, l[gs[a][x]].path);
      assert l[gs[a][x]].path in visited;
    }
  }

  lemma {:induction false} SweepSound(l: seq<Candidate>, t: int, i: nat, visited: set<Path>, gs: seq<seq<nat>>)
    requires SweepInv(l, t, i, visited, gs)
    ensures var r := Sweep(l, t, i, visited, gs); SweepInv(l, t, |l|, r.visited, r.groups)
    decreases |l| - i
  {
    if i < |l| {
      if l[i].path in visited {
        assert Sweep(l, t, i, visited, gs) == Sweep(l, t, i + 1, visited, gs);
        SweepSkip(l, t, i, visited, gs);
        SweepSound(l, t, i + 1, visited, gs);
      } else {
        var s := Scan(l, t, i, i + 1, visited, [i]);
        var gs' := if |s.group| > 1 then gs + [s.group] else gs;
        assert Sweep(l, t, i, visited, gs) == Sweep(l, t, i + 1, s.visited, gs');
        SweepStep(l, t, i, visited, gs);
        SweepSound(l, t, i + 1, s.visited, gs');
      }
    }
  }

  /** Everything the outer loop's invariant says, for the finished pass. */
  lemma ClustersInvariant(l: seq<Candidate>, t: int)
    ensures SweepInv(l, t, |l|, Sweep(l, t, 0, {}, []).visited, Clusters(l, t))
  {
    assert AllFollowerPaths(l, []) == {};
    SweepSound(l, t, 0, {}, []);
  }

  /** Every kept group has at least two members in increasing `phash_list`
      position; its first member is the seed, which no group absorbed as a
      follower; every other member is within distance `t` of the seed. */
  lemma ClusterShape(l: seq<Candidate>, t: int, a: nat)
    requires a < |Clusters(l, t)|
    ensures var g := Clusters(l, t)[a];
            && |g| >= 2
            && Increasing(g)
            && !IsFollower(Clusters(l, t), g[0])
            && forall k :: 1 <= k < |g| ==> Hamming(l[g[0]].fp, l[g[k]].fp) <= t
  {
    ClustersInvariant(l, t);
  }

  /** Groups are formed in input order: earlier groups have earlier seeds. */
  lemma SeedsInOrder(l: seq<Candidate>, t: int, a: nat, b: nat)
    requires a < b < |Clusters(l, t)|
    ensures Clusters(l, t)[a][0] < Clusters(l, t)[b][0]
  {
    ClustersInvariant(l, t);
  }

  /** No position is in two groups, so a follower is never a seed of another group
      and is never absorbed twice. */
  lemma ClustersDisjoint(l: seq<Candidate>, t: int)
    ensures Disjoint(Clusters(l, t))
  {
    ClustersInvariant(l, t);
  }

  /** With distinct paths (as a directory walk yields them) no path is in two groups,
      and no path is twice in one group. */
  lemma ClustersShareNoPath(l: seq<Candidate>, t: int, a: nat, b: nat, x: nat, y: nat)
    requires DistinctPaths(l)
    requires a < |Clusters(l, t)| && b < |Clusters(l, t)|
    requires x < |Clusters(l, t)[a]| && y < |Clusters(l, t)[b]|
    requires a != b || x != y
    ensures Members(l, Clusters(l, t)[a])[x] != Members(l, Clusters(l, t)[b])[y]
  {
    var gs := Clusters(l, t);
    ClustersInvariant(l, t);
    var u, v := gs[a][x], gs[b][y];
    if a == b {
      assert IsCluster(l, t, gs[a]);
      assert u != v;
    }
    assert u != v;
    if u < v {
      assert l[u].path != l[v].path;
    } else {
      assert l[v].path != l[u].path;
    }
  }

  /** The greedy pass leaves nothing close behind: if an entry is not a follower,
      every later entry within distance `t` of it is a follower of some group. In
      particular a seed whose group was dropped had no unabsorbed entry near it. */
  lemma ClustersMaximal(l: seq<Candidate>, t: int, s: nat, j: nat)
    requires DistinctPaths(l)
    requires s < j < |l|
    requires !IsFollower(Clusters(l, t), s)
    requires Hamming(l[s].fp, l[j].fp) <= t
    ensures IsFollower(Clusters(l, t), j)
  {
    var gs := Clusters(l, t);
    ClustersInvariant(l, t);
    AllFollowerPathsMember(l, gs, l[s].path);
    AllFollowerPathsMember(l, gs, l[j].path);
    assert l[j].path in AllFollowerPaths(l, gs);
    var a, x :| 0 <= a < |gs| && 1 <= x < |gs[a]| && l[gs[a][x]].path == l[j].path;
    SamePathSamePosition(l, gs[a][x], j);
  }

  lemma SamePathSamePosition(l: seq<Candidate>, u: nat, v: nat)
    requires DistinctPaths(l)
    requires u < |l| && v < |l| && l[u].path == l[v].path
    ensures u == v
  {
  }

  /** Nothing is promised between followers beyond what the seed gives: two members
      of one group are within twice the threshold of each other. */
  lemma MembersWithinTwiceThreshold(l: seq<Candidate>, t: int, a: nat, x: nat, y: nat)
    requires a < |Clusters(l, t)|
    requires x < |Clusters(l, t)[a]| && y < |Clusters(l, t)[a]|
    ensures Hamming(l[Clusters(l, t)[a][x]].fp, l[Clusters(l, t)[a][y]].fp) <= 2 * t
  {
    var g := Clusters(l, t)[a];
    ClustersInvariant(l, t);
    assert IsCluster(l, t, g);
    var s, u, v := l[g[0]].fp, l[g[x]].fp, l[g[y]].fp;
    assert Hamming(s, l[g[1]].fp) <= t;
    HammingZeroIffEqual(s, s);
    HammingSymmetric(s, u);
    HammingTriangle(u, s, v);
  }

  /** With threshold 0 a group is a set of entries with one and the same fingerprint. */
  lemma ZeroThresholdMeansEqual(l: seq<Candidate>, a: nat, k: nat)
    requires a < |Clusters(l, 0)|
    requires k < |Clusters(l, 0)[a]|
    ensures l[Clusters(l, 0)[a][k]].fp == l[Clusters(l, 0)[a][0]].fp
  {
    var g := Clusters(l, 0)[a];
    ClustersInvariant(l, 0);
    assert IsCluster(l, 0, g);
    if k > 0 {
      HammingZeroIffEqual(l[g[0]].fp, l[g[k]].fp);
    }
  }

  // ---------------------------------------------------------------------------
  // What ends up in visual_map

  /** The position of the last group whose seed renders to `k`, or -1. */
  ghost function LastKeyed(l: seq<Candidate>, render: Fingerprint -> string, gs: seq<seq<nat>>, k: string): (a: int)
    requires AllInRange(l, gs)
    ensures -1 <= a < |gs|
    ensures a >= 0 ==> render(l[gs[a][0]].fp) == k
    ensures forall b :: a < b < |gs| ==> render(l[gs[b][0]].fp) != k
  {
    if gs == [] then -1
    else
      var n := |gs| - 1;
      if render(l[gs[n][0]].fp) == k then n
      else
        assert forall b :: 0 <= b < n ==> gs[..n][b] == gs[b];
        LastKeyed(l, render, gs[..n], k)
  }

  /** A later group whose seed renders to the same key overwrites an earlier one:
      under each key is the last such group, and a key no seed renders to reads as
      empty. */
  lemma {:induction false} PublishLookup(l: seq<Candidate>, render: Fingerprint -> string, gs: seq<seq<nat>>, k: string)
    requires AllInRange(l, gs)
    ensures var a := LastKeyed(l, render, gs, k);
            Lookup(Publish(l, render, gs), k) == if a < 0 then [] else Members(l, gs[a])
  {
    if gs != [] {
      var n := |gs| - 1;
      var front := gs[..n];
      var d0 := Publish(l, render, front);
      var key := render(l[gs[n][0]].fp);
      var m := Members(l, gs[n]);
      assert Publish(l, render, gs) == Assign(d0, key, m);
      AssignLookup(d0, key, m, k);
      if key != k {
        PublishLookup(l, render, front, k);
        var a := LastKeyed(l, render, front, k);
        assert LastKeyed(l, render, gs, k) == a;
        if a >= 0 {
          assert front[a] == gs[a];
        }
      }
    }
  }

  /** The keys of `visual_map` are the rendered seeds of the kept groups. */
  lemma {:induction false} PublishKeys(l: seq<Candidate>, render: Fingerprint -> string, gs: seq<seq<nat>>, k: string)
    requires AllInRange(l, gs)
    ensures k in Keys(Publish(l, render, gs)) <==> LastKeyed(l, render, gs, k) >= 0
  {
    if gs != [] {
      var n := |gs| - 1;
      var front := gs[..n];
      var d0 := Publish(l, render, front);
      var key := render(l[gs[n][0]].fp);
      var m := Members(l, gs[n]);
      assert Publish(l, render, gs) == Assign(d0, key, m);
      AssignKeys(d0, key, m);
      if key != k {
        PublishKeys(l, render, front, k);
        assert LastKeyed(l, render, gs, k) == LastKeyed(l, render, front, k);
      }
    }
  }

  lemma {:induction false} PublishWellFormed(l: seq<Candidate>, render: Fingerprint -> string, gs: seq<seq<nat>>)
    requires AllInRange(l, gs)
    ensures WellFormed(Publish(l, render, gs))
  {
    if gs != [] {
      var n := |gs| - 1;
      assert forall b :: 0 <= b < n ==> gs[..n][b] == gs[b];
      PublishWellFormed(l, render, gs[..n]);
      AssignWellFormed(Publish(l, render, gs[..n]), render(l[gs[n][0]].fp), Members(l, gs[n]));
    }
  }

  /** Every entry of `visual_map` is a kept group under its seed's rendered hash: it
      has at least two members, the seed first, the others within distance `t`. */
  lemma VisualMapEntries(l: seq<Candidate>, t: int, render: Fingerprint -> string, e: nat)
    requires e < |VisualMap(l, t, render)|
    ensures var entry := VisualMap(l, t, render)[e];
            exists a :: 0 <= a < |Clusters(l, t)| &&
                        entry.key == render(l[Clusters(l, t)[a][0]].fp) &&
                        entry.files == Members(l, Clusters(l, t)[a])
    ensures |VisualMap(l, t, render)[e].files| >= 2
  {
    var gs := Clusters(l, t);
    var d := VisualMap(l, t, render);
    var k := d[e].key;
    PublishWellFormed(l, render, gs);
    LookupEntry(d, e);
    PublishLookup(l, render, gs, k);
    PublishKeys(l, render, gs, k);
    assert Keys(d)[e] == k;
    var a := LastKeyed(l, render, gs, k);
    ClustersInvariant(l, t);
    assert IsCluster(l, t, gs[a]);
  }

  /** With distinct paths, `visual_map` puts no path in two lists and no path twice
      in one list. */
  lemma VisualMapSharesNoPath(l: seq<Candidate>, t: int, render: Fingerprint -> string)
    requires DistinctPaths(l)
    ensures SharesNoPath(VisualMap(l, t, render))
  {
    var gs := Clusters(l, t);
    var d := VisualMap(l, t, render);
    PublishWellFormed(l, render, gs);
    forall a, b, x, y | 0 <= a < |d| && 0 <= b < |d| && 0 <= x < |d[a].files| && 0 <= y < |d[b].files| && (a != b || x != y)
      ensures d[a].files[x] != d[b].files[y]
    {
      VisualMapEntries(l, t, render, a);
      VisualMapEntries(l, t, render, b);
      var i :| 0 <= i < |gs| && d[a].key == render(l[gs[i][0]].fp) && d[a].files == Members(l, gs[i]);
      var j :| 0 <= j < |gs| && d[b].key == render(l[gs[j][0]].fp) && d[b].files == Members(l, gs[j]);
      if a != b {
        assert d[a].key != d[b].key;
      }
      ClustersShareNoPath(l, t, i, j, x, y);
    }
  }

  /** Visual-map keys are only overwritten when rendering is lossy or the threshold is
      negative: with an injective rendering, a non-negative threshold and distinct
      paths every kept group is found under its seed's key. */
  lemma NoOverwrite(l: seq<Candidate>, t: int, render: Fingerprint -> string, a: nat)
    requires DistinctPaths(l)
    requires t >= 0
    requires forall u, v :: render(u) == render(v) ==> u == v
    requires a < |Clusters(l, t)|
    ensures Lookup(VisualMap(l, t, render), render(l[Clusters(l, t)[a][0]].fp)) == Members(l, Clusters(l, t)[a])
  {
    var gs := Clusters(l, t);
    var k := render(l[gs[a][0]].fp);
    PublishLookup(l, render, gs, k);
    var b := LastKeyed(l, render, gs, k);
    if b != a {
      ClustersInvariant(l, t);
      var s1, s2 := gs[a][0], gs[b][0];
      assert s1 < s2;
      HammingZeroIffEqual(l[s1].fp, l[s2].fp);
      assert !IsFollower(gs, s1);
      ClustersMaximal(l, t, s1, s2);
      assert false;
    }
  }

  // ---------------------------------------------------------------------------
  // Which paths the visual map flags

  /** `p` was absorbed as a follower into some kept group. */
  ghost predicate Absorbed(l: seq<Candidate>, t: int, p: Path)
  {
    var gs := Clusters(l, t);
    exists a, x :: 0 <= a < |gs| && 1 <= x < |gs[a]| && l[gs[a][x]].path == p
  }

  lemma FollowerIsAbsorbed(l: seq<Candidate>, t: int, j: nat)
    requires j < |l|
    ensures IsFollower(Clusters(l, t), j) ==> Absorbed(l, t, l[j].path)
  {
  }

  /** Every path `visual_map` lists after the first of its list is an absorbed
      follower. */
  lemma VisualMapListsFollowers(l: seq<Candidate>, t: int, render: Fingerprint -> string, e: nat, k: nat)
    requires e < |VisualMap(l, t, render)| && 1 <= k < |VisualMap(l, t, render)[e].files|
    ensures Absorbed(l, t, VisualMap(l, t, render)[e].files[k])
  {
    var gs := Clusters(l, t);
    var files := VisualMap(l, t, render)[e].files;
    VisualMapEntries(l, t, render, e);
    var a :| 0 <= a < |gs| && files == Members(l, gs[a]);
    var ms := Members(l, gs[a]);
    assert |ms| == |gs[a]| && ms[k] == l[gs[a][k]].path;
    assert 1 <= k < |gs[a]| && l[gs[a][k]].path == files[k];
  }

  /** When no group is overwritten (an injective rendering, a non-negative threshold
      and distinct paths), every absorbed follower is listed after the first of its
      list in `visual_map`. */
  lemma FollowersListed(l: seq<Candidate>, t: int, render: Fingerprint -> string, p: Path)
    requires DistinctPaths(l)
    requires t >= 0
    requires forall u, v :: render(u) == render(v) ==> u == v
    requires Absorbed(l, t, p)
    ensures var d := VisualMap(l, t, render);
            exists e, k :: 0 <= e < |d| && 1 <= k < |d[e].files| && d[e].files[k] == p
  {
    var gs := Clusters(l, t);
    var d := VisualMap(l, t, render);
    var a, x :| 0 <= a < |gs| && 1 <= x < |gs[a]| && l[gs[a][x]].path == p;
    var key := render(l[gs[a][0]].fp);
    NoOverwrite(l, t, render, a);
    PublishWellFormed(l, render, gs);
    LookupFound(d, key);
    var e :| 0 <= e < |d| && d[e].files == Lookup(d, key);
    assert d[e].files[x] == p;
  }

  /** Entries that were not absorbed are pairwise more than `t` apart. */
  lemma SurvivorsFarApart(l: seq<Candidate>, t: int, u: nat, v: nat)
    requires DistinctPaths(l)
    requires u < v < |l|
    requires !Absorbed(l, t, l[u].path) && !Absorbed(l, t, l[v].path)
    ensures Hamming(l[u].fp, l[v].fp) > t
  {
    FollowerIsAbsorbed(l, t, u);
    FollowerIsAbsorbed(l, t, v);
    if Hamming(l[u].fp, l[v].fp) <= t {
      ClustersMaximal(l, t, u, v);
      assert false;
    }
  }

  /** A kept group holds two entries within `t` of each other: its seed and its
      first follower. */
  lemma ClusterHasClosePair(l: seq<Candidate>, t: int, a: nat)
    requires a < |Clusters(l, t)|
    ensures exists u, v :: 0 <= u < v < |l| && Hamming(l[u].fp, l[v].fp) <= t
  {
    var g := Clusters(l, t)[a];
    ClusterShape(l, t, a);
    assert g[0] < g[1] < |l| && Hamming(l[g[0]].fp, l[g[1]].fp) <= t;
  }

  /** A list whose entries are pairwise more than `t` apart keeps no group. */
  lemma NoCloseNoClusters(l: seq<Candidate>, t: int)
    requires forall u, v :: 0 <= u < v < |l| ==> Hamming(l[u].fp, l[v].fp) > t
    ensures Clusters(l, t) == []
  {
    if Clusters(l, t) != [] {
      ClusterHasClosePair(l, t, 0);
      assert false;
    }
  }
}
