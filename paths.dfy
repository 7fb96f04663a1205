/** Pure string helpers of the scan: the image-extension filter of `get_all_images`
    and `os.path.basename` for POSIX paths. */
module Paths {
  import opened Common
  import opened Dicts

  /** The extensions the directory walker keeps (detect_duplicates.py line 13). */
  const ImageExtensions: seq<string> := [".jpg", ".jpeg", ".png", ".webp"]

  /** `c.lower()` for a character; only the ASCII letters A to Z are folded. */
  function LowerChar(c: char): (l: char)
    ensures 'A' <= c <= 'Z' ==> l as int == c as int + 32
    ensures !('A' <= c <= 'Z') ==> l == c
    ensures !('A' <= l <= 'Z')
  {
    if 'A' <= c <= 'Z' then (c as int + 32) as char else c
  }

  /** `s.lower()`, character by character. */
  function Lower(s: string): (r: string)
    ensures |r| == |s|
    ensures forall i {:trigger r[i]} :: 0 <= i < |s| ==> r[i] == LowerChar(s[i])
  {
    if s == [] then [] else [LowerChar(s[0])] + Lower(s[1..])
  }

  /** `s.endswith(suffix)`. */
  predicate EndsWith(s: string, suffix: string)
  {
    |suffix| <= |s| && s[|s| - |suffix|..] == suffix
  }

  /** `s.endswith(suffix)` holds exactly when `s` is some text followed by `suffix`. */
  lemma EndsWithConcat(s: string, suffix: string)
    ensures EndsWith(s, suffix) <==> exists stem :: s == stem + suffix
  {
    if EndsWith(s, suffix) {
      assert s == s[..|s| - |suffix|] + suffix;
    }
  }

  /** The filter of `get_all_images`: the lower-cased file name ends with one of
      the four image extensions. */
  predicate IsImageName(filename: string)
  {
    var l := Lower(filename);
    EndsWith(l, ".jpg") || EndsWith(l, ".jpeg") || EndsWith(l, ".png") || EndsWith(l, ".webp")
  }

  /** Lower-casing twice is lower-casing once. */
  lemma LowerIdempotent(s: string)
    ensures Lower(Lower(s)) == Lower(s)
  {
  }

  /** The filter ignores letter case: a name is accepted exactly when its
      lower-cased form is, and exactly when it is `stem + ext` after lower-casing
      for one of the four extensions. */
  lemma {:induction false} ImageNameCaseInsensitive(filename: string)
    ensures IsImageName(filename) <==> IsImageName(Lower(filename))
    ensures IsImageName(filename) <==>
              exists stem, i :: 0 <= i < |ImageExtensions| && Lower(filename) == stem + ImageExtensions[i]
  {
    LowerIdempotent(filename);
    var l := Lower(filename);
    forall i | 0 <= i < |ImageExtensions| {
      EndsWithConcat(l, ImageExtensions[i]);
    }
    assert IsImageName(filename) <==> exists i :: 0 <= i < |ImageExtensions| && EndsWith(l, ImageExtensions[i]) by {
      assert ImageExtensions[0] == ".jpg" && ImageExtensions[1] == ".jpeg";
      assert ImageExtensions[2] == ".png" && ImageExtensions[3] == ".webp";
    }
  }

  /** Upper-case extensions are accepted; other extensions, an extension that is
      only followed by more text, and an extension without its dot are not. */
  lemma ImageNameAccepts()
    ensures IsImageName("A.JPG")
    ensures IsImageName("b.Webp")
  {
    var l := Lower("A.JPG");
    assert l[1] == '.' && l[2] == 'j' && l[3] == 'p' && l[4] == 'g';
    assert l[1..] == ".jpg";
    var m := Lower("b.Webp");
    assert m[1] == '.' && m[2] == 'w' && m[3] == 'e' && m[4] == 'b' && m[5] == 'p';
    assert m[1..] == ".webp";
  }

  /** A text whose last character differs from the last character of `suffix`
      does not end with `suffix`. */
  lemma LastCharDiffers(s: string, suffix: string)
    requires |s| > 0 && |suffix| > 0 && s[|s| - 1] != suffix[|suffix| - 1]
    ensures !EndsWith(s, suffix)
  {
    if |suffix| <= |s| {
      assert s[|s| - |suffix|..][|suffix| - 1] == s[|s| - 1];
    }
  }

  /** A name whose last character, lower-cased, is neither `g` nor `p` is refused:
      every accepted name ends in one of those. */
  lemma RejectedByLastChar(filename: string)
    requires |filename| > 0
    requires LowerChar(filename[|filename| - 1]) != 'g' && LowerChar(filename[|filename| - 1]) != 'p'
    ensures !IsImageName(filename)
  {
    var l := Lower(filename);
    assert l[|l| - 1] == LowerChar(filename[|filename| - 1]);
    LastCharDiffers(l, ".jpg");
    LastCharDiffers(l, ".jpeg");
    LastCharDiffers(l, ".png");
    LastCharDiffers(l, ".webp");
  }

  lemma ImageNameRejects()
    ensures !IsImageName("a.txt")
    ensures !IsImageName("a.jpg.bak")
    ensures !IsImageName("jpg")
  {
    RejectedByLastChar("a.txt");
    RejectedByLastChar("a.jpg.bak");
    assert |Lower("jpg")| == 3;
  }

  /** The index of the last `/` in `s`, or -1 when there is none (`s.rfind('/')`). */
  function LastSlash(s: string): (r: int)
    ensures -1 <= r < |s|
  {
    LastSlashBefore(s, |s|)
  }

  /** The index of the last `/` among the first `n` characters of `s`, or -1. */
  function LastSlashBefore(s: string, n: nat): (r: int)
    requires n <= |s|
    ensures -1 <= r < n
  {
    if n == 0 then -1 else if s[n - 1] == '/' then n - 1 else LastSlashBefore(s, n - 1)
  }

  /** The index found holds a `/` and no later character does. */
  lemma {:induction false} LastSlashBeforeSpec(s: string, n: nat)
    requires n <= |s|
    ensures var r := LastSlashBefore(s, n);
            (r >= 0 ==> s[r] == '/') && forall k :: r < k < n ==> s[k] != '/'
  {
    if n > 0 && s[n - 1] != '/' {
      LastSlashBeforeSpec(s, n - 1);
    }
  }

  /** `os.path.basename(path)` on POSIX: the text after the last `/`. */
  function Basename(path: Path): string
  {
    path[LastSlash(path) + 1..]
  }

  /** The basename is the longest suffix of `path` that holds no `/`: it is the
      whole path when the path has no `/`, and it is empty when the path ends in
      `/`. */
  lemma BasenameShape(path: Path)
    ensures var name := Basename(path);
            && '/' !in name
            && |name| <= |path| && path[|path| - |name|..] == name
            && (|name| < |path| ==> path[|path| - |name| - 1] == '/')
  {
    var r := LastSlash(path);
    LastSlashBeforeSpec(path, |path|);
    var name := path[r + 1..];
    assert |path| - |name| == r + 1;
    forall k | 0 <= k < |name| ensures name[k] != '/' {
      assert name[k] == path[r + 1 + k];
    }
  }

  /** Without a `/` among the first `n` characters, none is found. */
  lemma {:induction false} LastSlashBeforeNone(s: string, n: nat)
    requires n <= |s|
    requires forall k :: 0 <= k < n ==> s[k] != '/'
    ensures LastSlashBefore(s, n) == -1
  {
    if n > 0 {
      LastSlashBeforeNone(s, n - 1);
    }
  }

  /** A path without a `/` is its own basename. */
  lemma BasenameNoSlash(path: Path)
    requires '/' !in path
    ensures Basename(path) == path
  {
    LastSlashBeforeNone(path, |path|);
  }

  /** Two paths in different directories with the same file name share a basename. */
  lemma BasenameOfJoin(dir: string, name: string)
    requires '/' !in name
    ensures Basename(dir + "/" + name) == name
  {
    var p := dir + "/" + name;
    BasenameShape(p);
    assert p[|p| - |name| - 1] == '/';
    assert p[|p| - |name|..] == name;
  }
}
