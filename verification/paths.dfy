/** Path handling of the batch tool: the final component of a path, its suffix and
    stem as pathlib defines them, the extension check, and the name of the file the
    tool writes for each input. */
module Paths {

  /** A path in POSIX form, '/' between components, already normalised the way
      pathlib normalises it (no trailing separator except for the root "/"). The
      current directory, which pathlib writes ".", is the empty path here. */
  type Path = string

  /** The extensions the tool accepts, compared in lower case. */
  const SupportedExts: set<string> := {".png", ".jpg", ".jpeg", ".webp", ".bmp", ".tiff", ".tif"}

  /** What is appended to the stem of an input to name its output. */
  const OutputTag: string := "_nobg.png"

  /** Index of the last occurrence of `c` in `s`, or -1 when there is none
      (Python's `str.rfind`). */
  function LastIndexOf(s: string, c: char): (r: int)
    ensures -1 <= r < |s|
  {
    LastIndexBefore(s, c, |s|)
  }

  /** Index of the last occurrence of `c` among the first `k` characters of `s`. */
  function LastIndexBefore(s: string, c: char, k: nat): (r: int)
    requires k <= |s|
    ensures -1 <= r < k
    decreases k
  {
    if k == 0 then -1
    else if s[k - 1] == c then k - 1
    else LastIndexBefore(s, c, k - 1)
  }

  /** `LastIndexBefore` finds an occurrence of `c`, and none after it. */
  lemma {:induction false} LastIndexBeforeFinds(s: string, c: char, k: nat)
    requires k <= |s|
    ensures LastIndexBefore(s, c, k) >= 0 ==> s[LastIndexBefore(s, c, k)] == c
    ensures forall i :: LastIndexBefore(s, c, k) < i < k ==> s[i] != c
    decreases k
  {
    if k > 0 && s[k - 1] != c {
      LastIndexBeforeFinds(s, c, k - 1);
    }
  }

  /** `LastIndexOf` is `rfind`: the result is -1 or holds `c`, and no later
      character is `c`; these two facts single it out. */
  lemma LastIndexOfIs(s: string, c: char, k: int)
    requires -1 <= k < |s|
    ensures LastIndexOf(s, c) == k <==>
      (k >= 0 ==> s[k] == c) && forall i :: k < i < |s| ==> s[i] != c
  {
    LastIndexBeforeFinds(s, c, |s|);
  }

  /** The final component of a path: everything after its last separator. */
  function Name(p: Path): string
  {
    p[LastIndexOf(p, '/') + 1..]
  }

  /** The final component holds no separator, is a suffix of the path, and is
      preceded by a separator unless it is the whole path. */
  lemma NameIsLastComponent(p: Path)
    ensures '/' !in Name(p)
    ensures |Name(p)| <= |p| && p[|p| - |Name(p)|..] == Name(p)
    ensures |Name(p)| < |p| ==> p[|p| - |Name(p)| - 1] == '/'
  {
    LastIndexOfIs(p, '/', LastIndexOf(p, '/'));
  }

  /** Where pathlib splits a final component into stem and suffix: at its last dot
      when that dot is neither the first nor the last character, at its end
      otherwise. */
  function SplitPoint(name: string): (r: nat)
    ensures r <= |name|
  {
    var i := LastIndexOf(name, '.');
    if 0 < i < |name| - 1 then i else |name|
  }

  /** pathlib's `suffix` of a final component: the text from its last dot, when that
      dot is neither the first nor the last character; the empty string otherwise. */
  function Suffix(name: string): string
  {
    name[SplitPoint(name)..]
  }

  /** pathlib's `stem` of a final component: the component without its suffix. */
  function Stem(name: string): string
  {
    name[..SplitPoint(name)]
  }

  /** A final component is its stem followed by its suffix; the suffix is empty or a
      dot followed by at least one character and no further dot; the stem is empty
      only for the empty name, and holds a separator only if the name does. */
  lemma StemAndSuffix(name: string)
    ensures Stem(name) + Suffix(name) == name
    ensures Suffix(name) == "" ||
      (|Suffix(name)| >= 2 && Suffix(name)[0] == '.' && '.' !in Suffix(name)[1..])
    ensures Suffix(name) != "" ==> |Suffix(name)| < |name|
    ensures Stem(name) == "" ==> name == ""
    ensures '/' !in name ==> '/' !in Stem(name)
  {
    var i := LastIndexOf(name, '.');
    LastIndexOfIs(name, '.', i);
    if 0 < i < |name| - 1 {
      assert name[..i] + name[i..] == name;
      var e := name[i..];
      forall j | 0 <= j < |e| - 1 ensures e[1..][j] != '.' {
        assert e[1..][j] == name[i + 1 + j];
      }
    }
  }

  /** ASCII lower-casing of one character. */
  function LowerChar(c: char): char
  {
    if 'A' <= c <= 'Z' then (c as int + 32) as char else c
  }

  /** ASCII lower-casing of a string, character by character. */
  function Lower(s: string): (r: string)
    ensures |r| == |s|
  {
    seq(|s|, i requires 0 <= i < |s| => LowerChar(s[i]))
  }

  /** A path is eligible when the lower-cased suffix of its final component is one
      of the supported extensions. */
  predicate Eligible(p: Path)
  {
    Lower(Suffix(Name(p))) in SupportedExts
  }

  /** pathlib's `dir / name` for a single component `name`: the empty directory
      stands for ".", and the root already ends with a separator. */
  function Join(dir: Path, name: string): Path
  {
    if dir == "" then name
    else if dir[|dir| - 1] == '/' then dir + name
    else dir + "/" + name
  }

  /** Joining a component to a directory gives a path whose parent is exactly that
      directory: the directory, then a separator unless the directory is empty or
      already ends in one, then the component, which is the final component. */
  lemma JoinInDirectory(dir: Path, name: string)
    requires '/' !in name
    ensures Name(Join(dir, name)) == name
    ensures |dir| <= |Join(dir, name)| && Join(dir, name)[..|dir|] == dir
    ensures |Join(dir, name)| <= |dir| + 1 + |name|
    ensures Join(dir, name)[|dir|..] == name || Join(dir, name)[|dir|..] == "/" + name
    ensures Join(dir, name)[|dir|..] == name <==> dir == "" || dir[|dir| - 1] == '/'
  {
    var r := Join(dir, name);
    if dir == "" {
      assert r == "" + name;
      NameAfterSeparator("", name);
    } else if dir[|dir| - 1] == '/' {
      NameAfterSeparator(dir, name);
      assert r[|dir|..] == name;
    } else {
      var front := dir + "/";
      assert r == front + name;
      NameAfterSeparator(front, name);
      assert r[|dir|..] == "/" + name;
    }
  }

  /** A separator-free component after an empty front or one ending in a separator
      is the final component. */
  lemma NameAfterSeparator(front: Path, name: string)
    requires front == "" || front[|front| - 1] == '/'
    requires '/' !in name
    ensures Name(front + name) == name
  {
    var r := front + name;
    var k := |front| - 1;
    forall i | k < i < |r| ensures r[i] != '/' {
      assert r[i] == name[i - |front|];
    }
    LastIndexOfIs(r, '/', k);
    assert r[k + 1..] == name;
  }

  /** The output file name of an input: its stem followed by `_nobg.png`. */
  function OutName(p: Path): string
  {
    Stem(Name(p)) + OutputTag
  }

  /** The path the tool writes for input `p` in output directory `dir`. */
  function OutPath(dir: Path, p: Path): Path
  {
    Join(dir, OutName(p))
  }

  /** The output of an input lies directly in the output directory (the directory,
      at most one separator, then the final component); its final component is
      the input's stem followed by `_nobg.png`, so its suffix is always `.png`
      whatever the input's extension and its case; its own stem is the input's stem
      followed by `_nobg`; and it is itself an eligible image path. */
  lemma OutPathNaming(dir: Path, p: Path)
    ensures |dir| <= |OutPath(dir, p)| && OutPath(dir, p)[..|dir|] == dir
    ensures |OutPath(dir, p)| <= |dir| + 1 + |Name(OutPath(dir, p))|
    ensures OutPath(dir, p)[|dir|..] == Name(OutPath(dir, p)) <==> dir == "" || dir[|dir| - 1] == '/'
    ensures Name(OutPath(dir, p)) == Stem(Name(p)) + "_nobg.png"
    ensures Suffix(Name(OutPath(dir, p))) == ".png"
    ensures Stem(Name(OutPath(dir, p))) == Stem(Name(p)) + "_nobg"
    ensures Eligible(OutPath(dir, p))
  {
    var s := Stem(Name(p));
    OutNameIsComponent(p);
    JoinInDirectory(dir, OutName(p));
    TaggedNameSplits(s);
    assert Lower(".png") == ".png";
  }

  lemma OutNameIsComponent(p: Path)
    ensures '/' !in OutName(p)
  {
    var n := Name(p);
    NameIsLastComponent(p);
    StemAndSuffix(n);
    TagHasNoSeparator();
    NoSeparatorInConcat(Stem(n), OutputTag);
  }

  lemma TagHasNoSeparator()
    ensures '/' !in OutputTag
  {
  }

  lemma NoSeparatorInConcat(s: string, e: string)
    requires '/' !in s && '/' !in e
    ensures '/' !in s + e
  {
    var n := s + e;
    forall i | |s| <= i < |n| ensures n[i] != '/' {
      assert n[i] == e[i - |s|];
    }
  }

  /** The suffix and stem of `s + "_nobg.png"`. */
  lemma TaggedNameSplits(s: string)
    ensures Suffix(s + OutputTag) == ".png"
    ensures Stem(s + OutputTag) == s + "_nobg"
  {
    var n := s + OutputTag;
    var k := |n| - 4;
    assert n[k..] == ".png";
    LastIndexOfIs(n, '.', k);
    assert n[..k] == s + "_nobg";
  }

  /** Lower-casing never creates or removes a '.' or a '/'. */
  lemma LowerKeepsSeparators(c: char, x: char)
    requires c == '.' || c == '/'
    ensures LowerChar(x) == c <==> x == c
  {
  }

  /** The last dot (or separator) of a string is where it was before lower-casing. */
  lemma LastIndexOfLower(s: string, c: char)
    requires c == '.' || c == '/'
    ensures LastIndexOf(Lower(s), c) == LastIndexOf(s, c)
  {
    var k := LastIndexOf(s, c);
    var l := Lower(s);
    LastIndexOfIs(s, c, k);
    if k >= 0 {
      LowerKeepsSeparators(c, s[k]);
    }
    forall i | k < i < |l| ensures l[i] != c {
      LowerKeepsSeparators(c, s[i]);
    }
    LastIndexOfIs(l, c, k);
  }

  /** Suffix and stem commute with lower-casing: the dot that splits a name is found
      at the same place whatever the case of its letters. */
  lemma SuffixOfLower(name: string)
    ensures Suffix(Lower(name)) == Lower(Suffix(name))
    ensures Stem(Lower(name)) == Lower(Stem(name))
  {
    LastIndexOfLower(name, '.');
    var i := LastIndexOf(name, '.');
    if 0 < i < |name| - 1 {
      assert Lower(name)[i..] == Lower(name[i..]);
      assert Lower(name)[..i] == Lower(name[..i]);
    }
  }

  /** Eligibility ignores case: two paths whose final components agree once
      lower-cased are both eligible or both not (`photo.JPEG` and `photo.jpeg`). */
  lemma EligibleIgnoresCase(p: Path, q: Path)
    requires Lower(Name(p)) == Lower(Name(q))
    ensures Eligible(p) <==> Eligible(q)
  {
    SuffixOfLower(Name(p));
    SuffixOfLower(Name(q));
  }

  /** The shape shared by the seven supported extensions. */
  lemma SupportedExtShape(e: string)
    requires e in SupportedExts
    ensures |e| >= 4 && e[0] == '.' && forall j :: 1 <= j < |e| ==> e[j] != '.'
  {
  }

  /** An independent reading of the extension check: a path is eligible exactly when
      its final component ends, ignoring case, with one of the supported extensions
      and that extension is not the whole component (so `.png` alone is not). */
  lemma EligibleIffEndsWithExtension(p: Path)
    ensures Eligible(p) <==>
      exists k :: 0 < k < |Name(p)| && Lower(Name(p)[k..]) in SupportedExts
  {
    var n := Name(p);
    var i := LastIndexOf(n, '.');
    if Eligible(p) {
      SupportedExtShape(Lower(Suffix(n)));
      assert 0 < i < |n| - 1;
      assert Lower(n[i..]) in SupportedExts;
    }
    if exists k :: 0 < k < |n| && Lower(n[k..]) in SupportedExts {
      var k :| 0 < k < |n| && Lower(n[k..]) in SupportedExts;
      EndsWithExtension(n, k);
    }
  }

  lemma EndsWithExtension(n: string, k: nat)
    requires 0 < k < |n| && Lower(n[k..]) in SupportedExts
    ensures Suffix(n) == n[k..]
  {
    var e := Lower(n[k..]);
    SupportedExtShape(e);
    assert e[0] == LowerChar(n[k]);
    LowerKeepsSeparators('.', n[k]);
    forall j | k < j < |n| ensures n[j] != '.' {
      assert e[j - k] == LowerChar(n[j]);
      LowerKeepsSeparators('.', n[j]);
    }
    LastIndexOfIs(n, '.', k);
  }

  /** A final component made of a non-empty stem `s` and an extension `e` (a dot
      followed by at least one character and no further dot) splits back into
      exactly `s` and `e`. */
  lemma SplitStemAndExtension(s: string, e: string)
    requires s != ""
    requires |e| >= 2 && e[0] == '.' && '.' !in e[1..]
    ensures Suffix(s + e) == e && Stem(s + e) == s
  {
    var n := s + e;
    forall j | |s| < j < |n| ensures n[j] != '.' {
      assert n[j] == e[1..][j - |s| - 1];
    }
    LastIndexOfIs(n, '.', |s|);
    assert n[|s|..] == e && n[..|s|] == s;
  }

  /** The output path depends only on the input's stem: inputs with the same stem, in
      any directories and with any extensions in any case, are written to the same
      file, the later one overwriting the earlier. */
  lemma SameStemSameOutput(out: Path, d1: Path, d2: Path, s: string, e1: string, e2: string)
    requires s != "" && '/' !in s
    requires |e1| >= 2 && e1[0] == '.' && '.' !in e1[1..] && '/' !in e1
    requires |e2| >= 2 && e2[0] == '.' && '.' !in e2[1..] && '/' !in e2
    ensures OutPath(out, Join(d1, s + e1)) == OutPath(out, Join(d2, s + e2))
    ensures Name(OutPath(out, Join(d1, s + e1))) == s + "_nobg.png"
  {
    NoSeparatorInConcat(s, e1);
    NoSeparatorInConcat(s, e2);
    JoinInDirectory(d1, s + e1);
    JoinInDirectory(d2, s + e2);
    SplitStemAndExtension(s, e1);
    SplitStemAndExtension(s, e2);
    OutPathNaming(out, Join(d1, s + e1));
  }

  /** `photo.JPEG` is eligible, like `photo.jpeg`, and both are written as
      `photo_nobg.png`. */
  lemma PhotoJpegExample(p: Path, q: Path)
    requires Name(p) == "photo.JPEG" && Name(q) == "photo.jpeg"
    ensures Eligible(p) && Eligible(q)
    ensures OutName(p) == OutName(q) == "photo_nobg.png"
  {
    SplitNamed(Name(p), "photo", ".JPEG");
    SplitNamed(Name(q), "photo", ".jpeg");
    assert Lower(".JPEG") == ".jpeg";
    assert Lower(".jpeg") == ".jpeg";
  }

  lemma SplitNamed(n: string, s: string, e: string)
    requires s != ""
    requires |e| >= 2 && e[0] == '.' && '.' !in e[1..]
    requires n == s + e
    ensures Suffix(n) == e && Stem(n) == s
  {
    SplitStemAndExtension(s, e);
  }

  /** A name whose only dot is its first character has no suffix: `.png` is not an
      eligible image, and its output would be `.png_nobg.png`. */
  lemma HiddenNameHasNoSuffix(p: Path)
    requires Name(p) == ".png"
    ensures Suffix(Name(p)) == ""
    ensures !Eligible(p)
    ensures OutName(p) == ".png_nobg.png"
  {
    LastIndexOfIs(Name(p), '.', 0);
    assert Suffix(Name(p)) == "" && Stem(Name(p)) == ".png";
    assert Lower("") == "";
  }
}
