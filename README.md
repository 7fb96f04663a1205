# Duplicate image detector: classification engine

This project models the duplicate-classification logic of the script
`detect_duplicates.py`, and proves properties of that model. The script scans a
directory tree for images and sorts them into duplicate groups by three signals:

- the same file name (`name_map`);
- the same content digest (`hash_map`);
- a perceptual hash within Hamming distance 5 of a group's seed (`visual_map`).

It then writes a CSV report of every group of more than one file. On
confirmation it moves all files but the first of each content or visual group to
a backup folder.

Modules, one per part of the script:

- `Dicts` (`dicts.dfy`): Python's insertion-ordered dictionaries, modelled as
  association lists. `Append` is `d[k].append(p)` on a `defaultdict(list)`.
  `Assign` is `d[k] = v`.
- `Paths` (`paths.dfy`): the image-extension filter of `get_all_images`, and
  `os.path.basename` for POSIX paths.
- `Fingerprints` (`fingerprints.dfy`): a perceptual hash as 64 bits, and the
  Hamming distance that `imagehash`'s `-` computes.
- `Grouping` (`grouping.dfy`): the first loop of `detect_duplicates` as
  specification functions. `GroupedBy` groups by a key. `Fingerprinted` builds
  `phash_list`.
- `Clustering` (`clustering.dfy`): the greedy clustering with its `visited` set.
  `ClusterVisual` is the loop itself. `Scan` and `Sweep` are the inner and outer
  loops written as functions. The lemmas state what the pass guarantees.
- `Removal` (`removal.dfy`): the removal set of `move_all_duplicates`.
- `Log` (`log.dfy`): the lines `write_log` writes.
- `Detect` (`detect.dfy`): `detect_duplicates` as a whole, and what `main` does
  with its three maps.
- `Scenarios` (`scenarios.dfy`): small concrete runs, each fixed by proof.

Everything the script gets from outside its own code is a parameter. The
`Oracles` datatype holds these:

- `digest`: `hash_file` (SHA-256 of the file's bytes);
- `phash`: `perceptual_hash`, with `None` when PIL cannot decode the image;
- `render`: the text form of a perceptual hash, which is the key of `visual_map`.

The script keeps the text form in `phash_list` and decodes it again with
`hex_to_hash` before comparing. The model keeps the decoded bits instead, so it
assumes that decoding the rendered text gives back the same bits. The threshold
is a parameter of the clustering functions. `Detect.Threshold` sets it to 5, as
line 62 does.

Behaviour of the script that the model makes explicit:

- An unreadable file stops the whole run. `hash_file` (lines 18-23) has no
  `try`, so its error propagates out of `detect_duplicates`. The model treats
  `digest` as total and does not model this abort.
- Raising the threshold can split a group rather than only grow it, because the
  pass is greedy (`Scenarios.ThresholdNotMonotone`).
- The first member of a list is kept only as far as its own map is concerned
  (`Detect.HashGroupFirstKept`, `Detect.VisualGroupFirstKept`). The removal set
  is a union over the hash and visual maps (line 111). So the first file of a
  content group is moved when it follows a visual seed, and a whole content group
  can be moved (`Scenarios.ContentGroupMovedWhole`).
- The removal step builds a plain set of paths. It keeps no record of which kept
  file each moved file duplicates.
- The report names its maps `Nome`, `Hash` and `Visual` (line 106). The model
  uses the same names.

## Model

| member | source | states |
|---|---|---|
| `Paths.ImageNameCaseInsensitive` | detect_duplicates.py:13 | a file name is accepted exactly when its lower-cased form is some text followed by `.jpg`, `.jpeg`, `.png` or `.webp`; letter case never matters |
| `Paths.ImageNameAccepts` | detect_duplicates.py:13 | upper- and mixed-case extensions (`A.JPG`, `b.Webp`) are accepted |
| `Paths.ImageNameRejects` | detect_duplicates.py:13 | `a.txt`, `a.jpg.bak` and `jpg` (no dot) are refused |
| `Paths.RejectedByLastChar` | detect_duplicates.py:13 | a name whose last character, lower-cased, is neither `g` nor `p` is refused |
| `Paths.BasenameShape` | detect_duplicates.py:42 | the basename is the longest suffix of the path without `/`: `/`-free, a suffix of the path, preceded by `/` when shorter than the path |
| `Paths.BasenameNoSlash` | detect_duplicates.py:42 | a path without `/` is its own basename |
| `Paths.BasenameOfJoin` | detect_duplicates.py:42 | `dir + "/" + name` has basename `name`, so files with the same name in different folders share a name key |
| `Dicts.AppendLookup` | detect_duplicates.py:42-45 | after `d[k].append(p)` the list under `k` is the old list plus `p`; every other key reads as before |
| `Dicts.AppendKeys` | detect_duplicates.py:42-45 | the append leaves existing keys in place and adds a new key last, as a Python dict's insertion order does |
| `Dicts.AssignLookup` | detect_duplicates.py:66 | after `d[k] = v` the list under `k` is `v`; every other key reads as before |
| `Dicts.AssignKeys` | detect_duplicates.py:66 | an assignment to an existing key keeps its position; a new key goes last |
| `Dicts.AppendFlatten` | detect_duplicates.py:42-45 | an append adds the path to exactly one list: all lists together grow by that one path |
| `Fingerprints.Hamming` | detect_duplicates.py:61 | the distance between two hashes is at most their length |
| `Fingerprints.HammingCountsDifferences` | detect_duplicates.py:61 | the distance equals the number of bit positions in which the two hashes differ |
| `Fingerprints.HammingZeroIffEqual` | detect_duplicates.py:61-62 | distance 0 holds exactly for equal hashes |
| `Fingerprints.HammingSymmetric` | detect_duplicates.py:61 | the distance does not depend on the argument order |
| `Fingerprints.HammingTriangle` | detect_duplicates.py:61 | the distance obeys the triangle inequality |
| `Fingerprints.HammingConcat` | detect_duplicates.py:61 | the distance of two concatenations is the sum of the parts' distances |
| `Grouping.SelectMember` | detect_duplicates.py:41-45 | the paths selected for key `k` are exactly the scanned paths whose key is `k` |
| `Grouping.GroupedByLookup` | detect_duplicates.py:41-45 | the list under every key is the scan filtered by that key, in scan order |
| `Grouping.GroupedByWellFormed` | detect_duplicates.py:41-45 | no key occurs twice in a grouping |
| `Grouping.GroupedByKeys` | detect_duplicates.py:41-45 | the keys present are exactly the keys of the scanned paths |
| `Grouping.GroupedByPartition` | detect_duplicates.py:41-45 | all groups together hold the scanned paths, each exactly as often as it was scanned |
| `Grouping.PositionsOrdered` | detect_duplicates.py:41-45 | the scan positions behind a group are strictly increasing and cover every path with that key, so a group keeps input order |
| `Grouping.GroupContents` | detect_duplicates.py:41-45 | every group is non-empty and holds exactly the scanned paths of its key, in scan order |
| `Grouping.ExactlyOneGroup` | detect_duplicates.py:41-45 | every scanned path is in the group of its own key and in no other group |
| `Grouping.LaterInGroup` | detect_duplicates.py:41-45 | a path is in a group but not its first member exactly when an earlier scanned path has the same key |
| `Grouping.SelectTwin` | detect_duplicates.py:41-45 | among distinct paths, each member of a group of two or more has a different scanned path with the same key |
| `Grouping.SelectDistinct` | detect_duplicates.py:41-45 | among distinct paths, a group lists each path at most once |
| `Grouping.GroupedBySharesNoPath` | detect_duplicates.py:41-45 | a grouping of distinct paths puts no path in two groups and none twice in one group |
| `Grouping.FingerprintedSnoc` | detect_duplicates.py:47-49 | scanning a path appends it to `phash_list` exactly when it has a perceptual hash |
| `Grouping.Origins` | detect_duplicates.py:47-49 | `phash_list` comes from strictly increasing scan positions and holds every path with a perceptual hash, with that hash, and no other path |
| `Grouping.FingerprintedDistinct` | detect_duplicates.py:47-49 | distinct scanned paths give a `phash_list` with distinct paths |
| `Clustering.ClusterVisual` | detect_duplicates.py:52-66 | the nested loops over `phash_list` compute `VisualMap`, the groups of `Sweep` published under their seeds' rendered hashes |
| `Clustering.ClusterShape` | detect_duplicates.py:56-64 | every kept group has at least two members in increasing `phash_list` position; its first member is the seed, which no group absorbed as a follower; every other member is within the threshold of the seed |
| `Clustering.SeedsInOrder` | detect_duplicates.py:53-56 | groups are formed in input order: an earlier group has an earlier seed |
| `Clustering.ClustersDisjoint` | detect_duplicates.py:52-64 | no `phash_list` position is in two groups, so a follower never seeds a group and is never absorbed twice |
| `Clustering.ClustersShareNoPath` | detect_duplicates.py:52-64 | with distinct paths, no path is in two groups and no path is twice in one group |
| `Clustering.ClustersMaximal` | detect_duplicates.py:57-64 | if an entry is not a follower, every later entry within the threshold of it is a follower of some group |
| `Clustering.MembersWithinTwiceThreshold` | detect_duplicates.py:57-64 | two members of one group are within twice the threshold of each other; nothing closer is promised between followers |
| `Clustering.ZeroThresholdMeansEqual` | detect_duplicates.py:62 | with threshold 0, every member of a group has the seed's hash |
| `Clustering.PublishLookup` | detect_duplicates.py:65-66 | under each key `visual_map` holds the last group whose seed renders to that key; a later group overwrites an earlier one |
| `Clustering.PublishKeys` | detect_duplicates.py:65-66 | the keys of `visual_map` are exactly the rendered seeds of kept groups |
| `Clustering.PublishWellFormed` | detect_duplicates.py:65-66 | no key occurs twice in `visual_map` |
| `Clustering.VisualMapEntries` | detect_duplicates.py:65-66 | every `visual_map` entry is a kept group of at least two paths, under its seed's rendered hash |
| `Clustering.VisualMapSharesNoPath` | detect_duplicates.py:52-66 | with distinct paths, `visual_map` puts no path in two lists and none twice in one list |
| `Clustering.NoOverwrite` | detect_duplicates.py:65-66 | with an injective rendering, a non-negative threshold and distinct paths, every kept group is found under its seed's key |
| `Clustering.VisualMapListsFollowers` | detect_duplicates.py:56-66 | every path listed after the first of a `visual_map` list was absorbed as a follower |
| `Clustering.FollowersListed` | detect_duplicates.py:56-66 | when no group is overwritten, every absorbed follower is listed after the first of its `visual_map` list |
| `Clustering.SurvivorsFarApart` | detect_duplicates.py:52-64 | two entries that were never absorbed are more than the threshold apart |
| `Clustering.NoCloseNoClusters` | detect_duplicates.py:52-65 | when all entries are pairwise more than the threshold apart, no group is kept |
| `Removal.RemovalSet` | detect_duplicates.py:82-87 | the loops put a path in the set exactly when some supplied map lists it after the first member of a list of more than one path |
| `Removal.RemovedIffFlagged` | detect_duplicates.py:82-87 | the union of `files[1:]` over lists of more than one path contains exactly the flagged paths, once each |
| `Removal.KeptUnlessFlagged` | detect_duplicates.py:82-87 | a path that is only ever a first member, or alone in its list, is never removed |
| `Removal.RemovedAreListed` | detect_duplicates.py:82-87 | only paths that occur in the maps are removed |
| `Removal.FirstKeptWithinMap` | detect_duplicates.py:82-87 | when a map's lists share no path, the first member of each list is not among the paths that map removes |
| `Removal.FirstOfOneMapRemovedByAnother` | detect_duplicates.py:82-87 | across maps the first member is not protected: the first member of a hash group is removed when it follows a seed in a visual group |
| `Log.GroupRows` | detect_duplicates.py:77-78 | a list yields one row per member, the first one included, in list order |
| `Log.Render` | detect_duplicates.py:78 | each row becomes the line `kind,key,path` followed by a newline |
| `Log.LogLines` | detect_duplicates.py:73-78 | the report is the header `Tipo,Hash/Nome,Caminho` followed by one rendered line per row |
| `Log.MapRowsIff` | detect_duplicates.py:75-78 | one map reports a row exactly when that map has a list of more than one path holding that path under that key |
| `Log.RowsIff` | detect_duplicates.py:74-78 | the report lists a row exactly when some map has a list of more than one path holding that path under that key; lists of one path contribute nothing |
| `Log.OnlyHeader` | detect_duplicates.py:73-78 | the report is the header alone exactly when no map has a list of more than one path |
| `Log.ParseRecordInverse` | detect_duplicates.py:78 | when neither the kind nor the key contains a comma, a line can be split back into its row |
| `Log.RecordAmbiguous` | detect_duplicates.py:78 | fields are not quoted, so a key with a comma gives the same line as a different row |
| `Detect.DetectDuplicates` | detect_duplicates.py:34-68 | the scan returns the basename grouping, the digest grouping, and the visual map of the paths that have a perceptual hash |
| `Detect.Analyse` | detect_duplicates.py:101-112 | `main` writes the report of the three maps, and moves the removal set of the hash and visual maps only, and only on confirmation |
| `Detect.InPhashList` | detect_duplicates.py:47-49 | every scanned path with a perceptual hash enters `phash_list` with that hash |
| `Detect.AbsorbedHasHash` | detect_duplicates.py:47-64 | only scanned paths with a perceptual hash are absorbed into visual groups; paths without one take no part in clustering |
| `Detect.PlanSound` | detect_duplicates.py:104-111 | every moved path has an earlier path with the same content, or was absorbed into a visual group |
| `Detect.ContentTwinMoved` | detect_duplicates.py:104-111 | a path preceded by a path with the same content is moved |
| `Detect.AbsorbedMoved` | detect_duplicates.py:104-111 | when no visual group is overwritten, every absorbed follower is moved |
| `Detect.PlanIff` | detect_duplicates.py:104-111 | with distinct paths and an injective rendering, a path is moved exactly when it has an earlier content twin or was absorbed into a visual group |
| `Detect.MovedHasEarlierDuplicate` | detect_duplicates.py:104-111 | every moved path has an earlier scanned path with the same content, or with a perceptual hash within the threshold of its own |
| `Detect.NameOnlyDuplicatesKept` | detect_duplicates.py:111 | a path with no content twin and no perceptual hash is never moved, however many paths share its name |
| `Detect.HashGroupFirstKept` | detect_duplicates.py:82-87 | with distinct paths, the first file of each content group is not among the files the content map removes |
| `Detect.VisualGroupFirstKept` | detect_duplicates.py:82-87 | with distinct paths, the seed of each visual group is not among the files the visual map removes |
| `Detect.FirstScannedKept` | detect_duplicates.py:104-111 | the first scanned file is never moved, so a non-empty scan always keeps a file |
| `Detect.KeptFarApart` | detect_duplicates.py:104-111 | two kept files with perceptual hashes are more than the threshold apart |
| `Detect.KeptDiffer` | detect_duplicates.py:104-111 | two kept files have different content |
| `Detect.SecondRunMovesNothing` | detect_duplicates.py:101-112 | scanning only the files that were not moved finds nothing more to move |
| `Detect.GroupedRowIff` | detect_duplicates.py:41-45 | among distinct paths, a path is reported under its own key exactly when another scanned path has that key |
| `Detect.ReportedNameTwins` | detect_duplicates.py:106 | the report lists a path under `Nome` exactly when another scanned path has the same file name |
| `Detect.ReportedContentTwins` | detect_duplicates.py:106 | the report lists a path under `Hash` exactly when another scanned path has the same content |
| `Scenarios.SeedAbsorbsNeighbour` | detect_duplicates.py:52-66 | hashes `0000`, `0001`, `1111` at threshold 1 give the single group `[a.jpg, b.jpg]` |
| `Scenarios.SeedAbsorbsNeighbourRemoval` | detect_duplicates.py:65-87 | in that run `visual_map` holds the one group under the seed's key, and the removal set is `{b.jpg}` |
| `Scenarios.ThresholdNotMonotone` | detect_duplicates.py:52-64 | hashes `0000`, `0011`, `0111` give the group `[b.jpg, c.jpg]` at threshold 1, while at threshold 2 `c.jpg` is in no group |
| `Scenarios.ContentTwinsGrouped` | detect_duplicates.py:44-45 | two files with the same content form one content group of two paths |
| `Scenarios.DifferentNamesApart` | detect_duplicates.py:42 | two files with different names form two name groups of one path each |
| `Scenarios.ContentGroupMovedWhole` | detect_duplicates.py:104-111 | a scan of `a.jpg`, `b.jpg`, `c.jpg`, where `b.jpg` and `c.jpg` share content and all three are within distance 1 of `a.jpg`, moves exactly `b.jpg` and `c.jpg`: the whole content group |
| `Scenarios.RemovedOnce` | detect_duplicates.py:82-87 | a file that follows in a hash group and seeds a visual group is removed once, along with the visual group's follower |

## Left out

- Directory traversal (`os.walk` in `get_all_images`, lines 9-15) is I/O. Only
  the extension test of line 13 is modelled, as `Paths.IsImageName`.
- `hash_file` (lines 18-23) reads the file and computes SHA-256. It is the
  `digest` parameter. A read error aborts the real run; the model does not
  model that abort.
- `perceptual_hash` (lines 26-31) decodes the image with PIL and runs
  `imagehash.phash`, a floating-point transform in a foreign library. It is the
  `phash` parameter, with `None` for the failure path.
- `str(imagehash.phash(...))` and `imagehash.hex_to_hash` (lines 29 and 61) are
  foreign. The text form is the `render` parameter. Decoding is assumed to
  return the same 64 bits, which the model compares directly.
- Writing the CSV file (line 72) is I/O. The model produces the lines.
- Moving files (lines 89-98) is I/O: creating the backup folder, the existence
  test, `shutil.move`, and the overwrite when two removed files share a name in
  the backup folder. Only the removal set is modelled.
- `Detect.SecondRunMovesNothing`: the backup folder `backup_files` lies inside
  the scanned directory (line 89), and the walk (line 11) would find the moved
  copies again on a real second run. The lemma is about rescanning the
  surviving files only.
- `main`'s prompts and messages (lines 101-112) are interactive. `Detect.Analyse`
  takes the user's answer as a boolean.
- `Paths.LowerChar`: `str.lower()` folds only the ASCII letters A to Z here.
  Python also folds non-ASCII letters, which the model does not.
- `Paths.Basename`: only POSIX paths are modelled, so `/` is the only separator.
