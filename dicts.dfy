/** Insertion-ordered dictionaries from keys to lists of paths.

    The script keeps its duplicate maps in Python dictionaries (`defaultdict(list)`),
    whose iteration order is the order in which keys were first inserted. The log
    depends on that order, so a dictionary is modelled as an association list:
    one `Entry` per key, in insertion order. */
module Dicts {
  import opened Common

  /** One key of a dictionary together with the list stored under it. */
  datatype Entry = Entry(key: string, files: seq<Path>)

  type Dict = seq<Entry>

  /** The keys of `d`, in insertion order. */
  function Keys(d: Dict): (ks: seq<string>)
    ensures |ks| == |d|
    ensures forall i {:trigger ks[i]} :: 0 <= i < |d| ==> ks[i] == d[i].key
  {
    if d == [] then [] else [d[0].key] + Keys(d[1..])
  }

  /** No key occurs twice, as in every Python dictionary. */
  ghost predicate WellFormed(d: Dict)
  {
    forall i, j :: 0 <= i < j < |d| ==> d[i].key != d[j].key
  }

  /** No path is in two lists of `d`, and no list holds a path twice. */
  ghost predicate SharesNoPath(d: Dict)
  {
    forall a, b, x, y ::
      (0 <= a < |d| && 0 <= b < |d| && 0 <= x < |d[a].files| && 0 <= y < |d[b].files| && (a != b || x != y)) ==>
      d[a].files[x] != d[b].files[y]
  }

  /** The list stored under `k`, or the empty list for a missing key. This is a
      read-only view used in contracts, not a model of indexing `d[k]`: on a
      `defaultdict` that also inserts the key, which `Append` models. */
  function Lookup(d: Dict, k: string): (files: seq<Path>)
    ensures k !in Keys(d) ==> files == []
    ensures forall i :: 0 <= i < |d| && d[i].key == k && k !in Keys(d[..i]) ==> files == d[i].files
  {
    if d == [] then []
    else if d[0].key == k then d[0].files
    else
      assert forall i :: 1 <= i <= |d| ==> d[..i][1..] == d[1..][..i - 1];
      Lookup(d[1..], k)
  }

  /** `d[k].append(p)` on a `defaultdict(list)`: an existing key keeps its place and
      gets `p` at the end of its list; a new key is added last with the list `[p]`. */
  function Append(d: Dict, k: string, p: Path): Dict
  {
    if d == [] then [Entry(k, [p])]
    else if d[0].key == k then [Entry(k, d[0].files + [p])] + d[1..]
    else [d[0]] + Append(d[1..], k, p)
  }

  /** After the append, `k` reads as its old list followed by `p`; every other key
      reads as before. */
  lemma {:induction false} AppendLookup(d: Dict, k: string, p: Path, k': string)
    ensures Lookup(Append(d, k, p), k') == if k' == k then Lookup(d, k) + [p] else Lookup(d, k')
  {
    if d != [] && d[0].key != k {
      AppendLookup(d[1..], k, p, k');
      assert Append(d, k, p)[1..] == Append(d[1..], k, p);
    }
  }

  /** The append keeps the keys in place and adds a new key last. */
  lemma {:induction false} AppendKeys(d: Dict, k: string, p: Path)
    ensures Keys(Append(d, k, p)) == if k in Keys(d) then Keys(d) else Keys(d) + [k]
  {
    if d != [] && d[0].key != k {
      AppendKeys(d[1..], k, p);
      assert Append(d, k, p)[1..] == Append(d[1..], k, p);
      assert Keys(d) == [d[0].key] + Keys(d[1..]);
    }
  }

  /** `d[k] = v`: an existing key keeps its place and has its list replaced; a new
      key is added last. */
  function Assign(d: Dict, k: string, v: seq<Path>): Dict
  {
    if d == [] then [Entry(k, v)]
    else if d[0].key == k then [Entry(k, v)] + d[1..]
    else [d[0]] + Assign(d[1..], k, v)
  }

  /** After the assignment, `k` reads as `v`; every other key reads as before. */
  lemma {:induction false} AssignLookup(d: Dict, k: string, v: seq<Path>, k': string)
    ensures Lookup(Assign(d, k, v), k') == if k' == k then v else Lookup(d, k')
  {
    if d != [] && d[0].key != k {
      AssignLookup(d[1..], k, v, k');
      assert Assign(d, k, v)[1..] == Assign(d[1..], k, v);
    }
  }

  /** The assignment keeps the keys in place and adds a new key last. */
  lemma {:induction false} AssignKeys(d: Dict, k: string, v: seq<Path>)
    ensures Keys(Assign(d, k, v)) == if k in Keys(d) then Keys(d) else Keys(d) + [k]
  {
    if d != [] && d[0].key != k {
      AssignKeys(d[1..], k, v);
      assert Assign(d, k, v)[1..] == Assign(d[1..], k, v);
      assert Keys(d) == [d[0].key] + Keys(d[1..]);
    }
  }

  /** In a well-formed dictionary every entry is what looking up its key returns. */
  lemma {:induction false} LookupEntry(d: Dict, i: nat)
    requires WellFormed(d)
    requires i < |d|
    ensures Lookup(d, d[i].key) == d[i].files
  {
    if i > 0 {
      assert d[0].key != d[i].key;
      LookupEntry(d[1..], i - 1);
    }
  }

  /** In a well-formed dictionary a key with a non-empty list has an entry holding
      that list. */
  lemma LookupFound(d: Dict, k: string)
    requires WellFormed(d)
    requires Lookup(d, k) != []
    ensures exists e :: 0 <= e < |d| && d[e].key == k && d[e].files == Lookup(d, k)
  {
    var e :| 0 <= e < |d| && Keys(d)[e] == k;
    LookupEntry(d, e);
  }

  /** Appending and assigning keep every key unique. */
  lemma AppendWellFormed(d: Dict, k: string, p: Path)
    requires WellFormed(d)
    ensures WellFormed(Append(d, k, p))
  {
    var r := Append(d, k, p);
    AppendKeys(d, k, p);
    assert forall i :: 0 <= i < |r| ==> r[i].key == Keys(r)[i];
    assert forall i :: 0 <= i < |d| ==> d[i].key == Keys(d)[i];
  }

  lemma AssignWellFormed(d: Dict, k: string, v: seq<Path>)
    requires WellFormed(d)
    ensures WellFormed(Assign(d, k, v))
  {
    var r := Assign(d, k, v);
    AssignKeys(d, k, v);
    assert forall i :: 0 <= i < |r| ==> r[i].key == Keys(r)[i];
    assert forall i :: 0 <= i < |d| ==> d[i].key == Keys(d)[i];
  }

  /** All lists of `d`, one after the other, in iteration order. */
  function Flatten(d: Dict): seq<Path>
  {
    if d == [] then [] else d[0].files + Flatten(d[1..])
  }

  /** An append puts the new path into exactly one list: across all lists, the
      multiset of stored paths grows by that path and by nothing else. */
  lemma {:induction false} AppendFlatten(d: Dict, k: string, p: Path)
    ensures multiset(Flatten(Append(d, k, p))) == multiset(Flatten(d)) + multiset{p}
  {
    if d == [] {
    } else if d[0].key == k {
      assert Append(d, k, p)[1..] == d[1..];
    } else {
      AppendFlatten(d[1..], k, p);
      assert Append(d, k, p)[1..] == Append(d[1..], k, p);
    }
  }
}
