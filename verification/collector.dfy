/** Building the work list: a recursive folder listing filtered by extension, and
    the expansion of a drag-and-drop payload. The filesystem is an oracle that says
    what is a file, what is a directory, and in which order a recursive listing of a
    directory yields its entries. */
module Collector {
  import opened Paths

  /** What the collectors may ask of the filesystem. `walk(d)` is every entry below
      `d`, files and directories alike, in the order the recursive listing yields
      them. */
  datatype FileSystem = FileSystem(
    isFile: Path -> bool,
    isDir: Path -> bool,
    walk: Path -> seq<Path>)

  /** `r` can be obtained from `s` by deleting entries, keeping the rest in order. */
  ghost predicate IsSubsequence(r: seq<Path>, s: seq<Path>)
    decreases |s|
  {
    r == [] ||
    (s != [] && (IsSubsequence(r, s[1..]) || (r[0] == s[0] && IsSubsequence(r[1..], s[1..]))))
  }

  /** The eligible entries of a listing, in listing order: an order-preserving
      subsequence of `entries` in which every path is eligible. */
  function KeepImages(entries: seq<Path>): (r: seq<Path>)
    ensures forall i :: 0 <= i < |r| ==> Eligible(r[i])
    ensures IsSubsequence(r, entries)
    decreases |entries|
  {
    if entries == [] then []
    else
      var rest := KeepImages(entries[1..]);
      if Eligible(entries[0]) then [entries[0]] + rest else rest
  }

  /** Nothing eligible is dropped and nothing is duplicated: each eligible path
      occurs in the filtered listing exactly as often as in the listing, and any
      other path not at all. */
  lemma {:induction false} KeepImagesCount(entries: seq<Path>, x: Path)
    ensures multiset(KeepImages(entries))[x] == if Eligible(x) then multiset(entries)[x] else 0
    decreases |entries|
  {
    if entries != [] {
      KeepImagesCount(entries[1..], x);
      var e := entries[0];
      assert entries == [e] + entries[1..];
      assert multiset(entries) == multiset{e} + multiset(entries[1..]);
      if Eligible(e) {
        assert multiset([e] + KeepImages(entries[1..])) == multiset{e} + multiset(KeepImages(entries[1..]));
      }
    }
  }

  /** The images found under a folder: its recursive listing filtered by extension.
      Directories whose names carry an image extension pass the filter too, since
      only the suffix is looked at. */
  function ImagesInDir(fs: FileSystem, folder: Path): seq<Path>
  {
    KeepImages(fs.walk(folder))
  }

  /** Filtering twice keeps what filtering once kept. */
  lemma {:induction false} KeepImagesIdempotent(entries: seq<Path>)
    ensures KeepImages(KeepImages(entries)) == KeepImages(entries)
    decreases |entries|
  {
    if entries != [] {
      KeepImagesIdempotent(entries[1..]);
      var rest := KeepImages(entries[1..]);
      if Eligible(entries[0]) {
        assert ([entries[0]] + rest)[1..] == rest;
      }
    }
  }

  /** Filtering a listing made of two parts filters each part in turn. */
  lemma {:induction false} KeepImagesAppend(a: seq<Path>, b: seq<Path>)
    ensures KeepImages(a + b) == KeepImages(a) + KeepImages(b)
    decreases |a|
  {
    if a != [] {
      assert (a + b)[1..] == a[1..] + b;
      KeepImagesAppend(a[1..], b);
    } else {
      assert a + b == b;
    }
  }

  /** What one entry of a drop payload contributes: itself when it is a file with a
      supported extension, the images below it when it is a directory, nothing
      otherwise. */
  function Contribution(fs: FileSystem, p: Path): (r: seq<Path>)
    ensures forall i :: 0 <= i < |r| ==> Eligible(r[i])
    ensures forall x :: x in r <==>
      if fs.isFile(p) && Eligible(p) then x == p
      else fs.isDir(p) && x in fs.walk(p) && Eligible(x)
  {
    if fs.isFile(p) && Eligible(p) then [p]
    else if fs.isDir(p) then
      var r := ImagesInDir(fs, p);
      forall x ensures x in r <==> fs.isDir(p) && x in fs.walk(p) && Eligible(x) {
        KeepImagesCount(fs.walk(p), x);
        assert x in r <==> multiset(r)[x] > 0;
        assert x in fs.walk(p) <==> multiset(fs.walk(p))[x] > 0;
      }
      r
    else []
  }

  /** The work list a drop payload yields: the contributions of its entries,
      concatenated in payload order. */
  function Dropped(fs: FileSystem, payload: seq<Path>): (r: seq<Path>)
    ensures forall i :: 0 <= i < |r| ==> Eligible(r[i])
    decreases |payload|
  {
    if payload == [] then []
    else Contribution(fs, payload[0]) + Dropped(fs, payload[1..])
  }

  /** Dropping two payloads one after the other gives the two work lists one after
      the other: the expansion keeps payload order. */
  lemma {:induction false} DroppedAppend(fs: FileSystem, a: seq<Path>, b: seq<Path>)
    ensures Dropped(fs, a + b) == Dropped(fs, a) + Dropped(fs, b)
    decreases |a|
  {
    if a == [] {
      assert a + b == b;
    } else {
      assert (a + b)[1..] == a[1..] + b;
      DroppedAppend(fs, a[1..], b);
    }
  }

  /** A path is in the dropped work list exactly when some entry of the payload is
      that very path, as an eligible file, or is a directory whose listing holds it
      and it is eligible. */
  lemma {:induction false} DroppedMembership(fs: FileSystem, payload: seq<Path>, x: Path)
    ensures x in Dropped(fs, payload) <==>
      exists j :: 0 <= j < |payload| && x in Contribution(fs, payload[j])
    decreases |payload|
  {
    if payload != [] {
      DroppedMembership(fs, payload[1..], x);
      if x in Dropped(fs, payload[1..]) {
        var j :| 0 <= j < |payload[1..]| && x in Contribution(fs, payload[1..][j]);
        assert x in Contribution(fs, payload[j + 1]);
      }
      if exists j :: 0 <= j < |payload| && x in Contribution(fs, payload[j]) {
        var j :| 0 <= j < |payload| && x in Contribution(fs, payload[j]);
        if j > 0 {
          assert x in Contribution(fs, payload[1..][j - 1]);
        }
      }
    }
  }

  /** An entry that is neither an eligible file nor a directory is skipped: removing
      it from the payload leaves the work list unchanged. */
  lemma SkippedEntryIgnored(fs: FileSystem, a: seq<Path>, p: Path, b: seq<Path>)
    requires !(fs.isFile(p) && Eligible(p)) && !fs.isDir(p)
    ensures Dropped(fs, a + [p] + b) == Dropped(fs, a + b)
  {
    DroppedAppend(fs, a + [p], b);
    DroppedAppend(fs, a, [p]);
    DroppedAppend(fs, a, b);
    DroppedSingle(fs, p);
    assert Contribution(fs, p) == [];
    assert Dropped(fs, a + [p]) == Dropped(fs, a);
  }

  /** The work list is not deduplicated: an eligible file dropped twice is processed
      twice. */
  lemma DroppedKeepsDuplicates(fs: FileSystem, p: Path)
    requires fs.isFile(p) && Eligible(p)
    ensures Dropped(fs, [p, p]) == [p, p]
  {
    DroppedAppend(fs, [p], [p]);
    DroppedSingle(fs, p);
    assert [p, p] == [p] + [p];
  }

  lemma DroppedSingle(fs: FileSystem, p: Path)
    ensures Dropped(fs, [p]) == Contribution(fs, p)
  {
    assert [p][1..] == [];
  }

  lemma DroppedStep(fs: FileSystem, payload: seq<Path>, k: nat)
    requires k < |payload|
    ensures Dropped(fs, payload[..k + 1]) == Dropped(fs, payload[..k]) + Contribution(fs, payload[k])
  {
    var front, p := payload[..k], payload[k];
    assert payload[..k + 1] == front + [p];
    DroppedAppend(fs, front, [p]);
    DroppedSingle(fs, p);
  }

  /** The loop that expands a drop payload, one entry at a time, appending an
      eligible file and extending by the images of a directory. */
  method CollectDropped(fs: FileSystem, payload: seq<Path>) returns (allFiles: seq<Path>)
    ensures allFiles == Dropped(fs, payload)
    ensures forall i :: 0 <= i < |allFiles| ==> Eligible(allFiles[i])
  {
    allFiles := [];
    for k := 0 to |payload|
      invariant allFiles == Dropped(fs, payload[..k])
    {
      var p := payload[k];
      if fs.isFile(p) && Eligible(p) {
        allFiles := allFiles + [p];
      } else if fs.isDir(p) {
        allFiles := allFiles + ImagesInDir(fs, p);
      }
      DroppedStep(fs, payload, k);
    }
    assert payload[..|payload|] == payload;
  }
}
