/** The removal set of `move_all_duplicates` (detect_duplicates.py lines 82-87): the
    union, over every supplied map and every list of more than one path, of all
    paths but the first. */
module Removal {
  import opened Common
  import opened Dicts

  /** The paths of a list after its first one. */
  function Tail(files: seq<Path>): set<Path>
  {
    if |files| > 1 then set p | p in files[1..] else {}
  }

  /** What one dictionary contributes to the removal set. */
  function RemovedIn(d: Dict): set<Path>
  {
    if d == [] then {} else RemovedIn(d[..|d| - 1]) + Tail(d[|d| - 1].files)
  }

  /** The removal set for a sequence of dictionaries. */
  function Removed(maps: seq<Dict>): set<Path>
  {
    if maps == [] then {} else Removed(maps[..|maps| - 1]) + RemovedIn(maps[|maps| - 1])
  }

  /** `p` is a later-than-first member of some list of more than one path in `d`. */
  ghost predicate FlaggedIn(d: Dict, p: Path)
  {
    exists e, k :: 0 <= e < |d| && 1 <= k < |d[e].files| && d[e].files[k] == p
  }

  /** `p` is flagged by one of the maps. */
  ghost predicate Flagged(maps: seq<Dict>, p: Path)
  {
    exists m :: 0 <= m < |maps| && FlaggedIn(maps[m], p)
  }

  lemma {:induction false} RemovedInIffFlagged(d: Dict, p: Path)
    ensures p in RemovedIn(d) <==> FlaggedIn(d, p)
  {
    if d != [] {
      var n := |d| - 1;
      var front := d[..n];
      RemovedInIffFlagged(front, p);
      assert forall e :: 0 <= e < n ==> front[e] == d[e];
      if p in Tail(d[n].files) {
        var k :| 0 <= k < |d[n].files[1..]| && d[n].files[1..][k] == p;
        assert d[n].files[k + 1] == p;
      }
      if FlaggedIn(d, p) {
        var e, k :| 0 <= e < |d| && 1 <= k < |d[e].files| && d[e].files[k] == p;
        if e == n {
          assert d[n].files[1..][k - 1] == p;
        }
      }
    }
  }

  /** A path is removed exactly when some map lists it after the first member of a
      list of more than one path; it is removed once however many maps flag it. */
  lemma {:induction false} RemovedIffFlagged(maps: seq<Dict>, p: Path)
    ensures p in Removed(maps) <==> Flagged(maps, p)
  {
    if maps != [] {
      var n := |maps| - 1;
      var front := maps[..n];
      RemovedIffFlagged(front, p);
      RemovedInIffFlagged(maps[n], p);
      assert forall m :: 0 <= m < n ==> front[m] == maps[m];
    }
  }

  /** The loops of lines 82-87. */
  method RemovalSet(maps: seq<Dict>) returns (all: set<Path>)
    ensures forall p :: p in all <==> Flagged(maps, p)
  {
    all := {};
    var m := 0;
    while m < |maps|
      invariant 0 <= m <= |maps|
      invariant all == Removed(maps[..m])
    {
      var d := maps[m];
      var e := 0;
      while e < |d|
        invariant 0 <= e <= |d|
        invariant all == Removed(maps[..m]) + RemovedIn(d[..e])
      {
        var files := d[e].files;
        if |files| > 1 {
          all := all + set p | p in files[1..];
        }
        assert d[..e + 1][..e] == d[..e];
        e := e + 1;
      }
      assert d[..e] == d;
      assert maps[..m + 1][..m] == maps[..m];
      m := m + 1;
    }
    assert maps[..m] == maps;
    forall p ensures p in all <==> Flagged(maps, p) {
      RemovedIffFlagged(maps, p);
    }
  }

  /** A path that is only ever the first member of a list, or alone in its list, is
      never removed. */
  lemma KeptUnlessFlagged(maps: seq<Dict>, p: Path)
    requires forall m, e, k :: 0 <= m < |maps| && 0 <= e < |maps[m]| && 1 <= k < |maps[m][e].files| ==>
               maps[m][e].files[k] != p
    ensures p !in Removed(maps)
  {
    RemovedIffFlagged(maps, p);
  }

  /** Only paths that occur in the maps are removed. */
  lemma RemovedAreListed(maps: seq<Dict>, p: Path)
    requires p in Removed(maps)
    ensures exists m, e :: 0 <= m < |maps| && 0 <= e < |maps[m]| && p in maps[m][e].files
  {
    RemovedIffFlagged(maps, p);
    var m :| 0 <= m < |maps| && FlaggedIn(maps[m], p);
    var e, k :| 0 <= e < |maps[m]| && 1 <= k < |maps[m][e].files| && maps[m][e].files[k] == p;
  }

  /** Each list keeps its first member among the paths one map removes, when the
      map's lists share no path and none repeats a path. Grouping and clustering
      build such maps (`GroupedBySharesNoPath`, `VisualMapSharesNoPath`). */
  lemma FirstKeptWithinMap(d: Dict, e: nat)
    requires e < |d| && d[e].files != []
    requires SharesNoPath(d)
    ensures d[e].files[0] !in RemovedIn(d)
  {
    RemovedInIffFlagged(d, d[e].files[0]);
  }

  /** Across maps the first member of a list is not protected: a hash group's first
      file is removed when it follows a visually similar seed in a visual group. */
  lemma FirstOfOneMapRemovedByAnother()
    ensures var hashMap := [Entry("h", ["b", "c"])];
            var visualMap := [Entry("v", ["a", "b", "c"])];
            Removed([hashMap, visualMap]) == {"b", "c"}
  {
    var hashMap: Dict := [Entry("h", ["b", "c"])];
    var visualMap: Dict := [Entry("v", ["a", "b", "c"])];
    var none: seq<Dict> := [];
    assert [hashMap, visualMap][..1] == [hashMap];
    assert RemovedIn(hashMap) == Tail(["b", "c"]) by {
      assert hashMap[..0] == [];
    }
    assert RemovedIn(visualMap) == Tail(["a", "b", "c"]) by {
      assert visualMap[..0] == [];
    }
    assert Removed([hashMap]) == RemovedIn(hashMap) by {
      assert [hashMap][..0] == none;
    }
    assert Tail(["b", "c"]) == {"c"} by {
      assert ["b", "c"][1..] == ["c"];
    }
    assert Tail(["a", "b", "c"]) == {"b", "c"} by {
      assert ["a", "b", "c"][1..] == ["b", "c"];
    }
  }
}
