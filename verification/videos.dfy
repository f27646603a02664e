/**
 * The video list of backend/app.py: `get_all_videos` keeps the directory
 * entries with a video extension, and `index` turns each into a summary,
 * drops those the filter mode hides, and sorts annotated videos first and
 * then by lower-cased name.
 */
module VideoList {
  import opened Dicts
  import opened AnnotationStore

  // ---------------------------------------------------------------------
  // Strings: lower-casing, suffixes, posixpath.join and basename
  // ---------------------------------------------------------------------

  /** `str.lower()` on one character, for the ASCII letters. */
  function LowerChar(c: char): char {
    if 'A' <= c <= 'Z' then (c as int + 32) as char else c
  }

  function Lower(s: string): string {
    seq(|s|, i requires 0 <= i < |s| => LowerChar(s[i]))
  }

  predicate EndsWith(s: string, suffix: string) {
    |suffix| <= |s| && s[|s| - |suffix|..] == suffix
  }

  /** `file.lower().endswith((".mp4", ".avi", ".mov", ".mkv"))`. */
  predicate IsVideoFile(name: string) {
    var lower := Lower(name);
    EndsWith(lower, ".mp4") || EndsWith(lower, ".avi") || EndsWith(lower, ".mov") || EndsWith(lower, ".mkv")
  }

  /** `os.path.join(directory, name)` for POSIX paths. */
  function Join(directory: string, name: string): string {
    if |name| > 0 && name[0] == '/' then name
    else if directory == [] || directory[|directory| - 1] == '/' then directory + name
    else directory + "/" + name
  }

  /** `os.path.basename(path)`: everything after the last `/`. */
  function Basename(path: string): string {
    if path == [] || path[|path| - 1] == '/' then []
    else Basename(path[..|path| - 1]) + [path[|path| - 1]]
  }

  /** A name without `/` is the base name of itself appended to a directory prefix ending in `/`. */
  lemma {:induction false} BasenameAfterSeparator(prefix: string, name: string)
    requires '/' !in name
    requires prefix == [] || prefix[|prefix| - 1] == '/'
    ensures Basename(prefix + name) == name
  {
    if name == [] {
      assert prefix + name == prefix;
    } else {
      var init := name[..|name| - 1];
      assert (prefix + name)[..|prefix + name| - 1] == prefix + init;
      BasenameAfterSeparator(prefix, init);
      assert init + [name[|name| - 1]] == name;
    }
  }

  /** A directory entry's name is the base name of the path built from it. */
  lemma BasenameOfJoin(directory: string, name: string)
    requires '/' !in name
    ensures Basename(Join(directory, name)) == name
  {
    if directory == [] || directory[|directory| - 1] == '/' {
      BasenameAfterSeparator(directory, name);
    } else {
      assert directory + "/" + name == (directory + "/") + name;
      BasenameAfterSeparator(directory + "/", name);
    }
  }

  // ---------------------------------------------------------------------
  // get_all_videos
  // ---------------------------------------------------------------------

  /** The directory entries `get_all_videos` keeps, in listing order. */
  function VideoFiles(listing: seq<string>): (names: seq<string>)
    ensures |names| <= |listing|
    ensures forall f :: f in names <==> f in listing && IsVideoFile(f)
  {
    if listing == [] then []
    else
      var f := listing[|listing| - 1];
      VideoFiles(listing[..|listing| - 1]) + (if IsVideoFile(f) then [f] else [])
  }

  /**
   * `get_all_videos`: the directory entries with a video extension, in listing
   * order, each joined to the directory.
   */
  method GetAllVideos(directory: string, listing: seq<string>) returns (allVideos: seq<string>)
    ensures allVideos == AllVideos(directory, listing)
    ensures |allVideos| <= |listing|
  {
    allVideos := [];
    for i := 0 to |listing|
      invariant |allVideos| == |VideoFiles(listing[..i])|
      invariant forall j :: 0 <= j < |allVideos| ==> allVideos[j] == Join(directory, VideoFiles(listing[..i])[j])
    {
      var file := listing[i];
      if IsVideoFile(file) {
        allVideos := allVideos + [Join(directory, file)];
      }
      assert listing[..i + 1][..i] == listing[..i];
    }
    assert listing[..|listing|] == listing;
    assert allVideos == AllVideos(directory, listing);
  }

  /** The extension test ignores case: `c.MOV` is a video, `b.txt` is not. */
  lemma VideoFileExamples()
    ensures IsVideoFile("a.mp4") && !IsVideoFile("b.txt") && IsVideoFile("c.MOV")
  {
    assert Lower("a.mp4") == "a.mp4";
    assert Lower("a.mp4")[1..] == ".mp4";
    assert Lower("c.MOV") == "c.mov";
    assert Lower("c.MOV")[1..] == ".mov";
    assert Lower("b.txt") == "b.txt";
    assert Lower("b.txt")[1..] == ".txt";
  }

  /** A listing of `a.mp4`, `b.txt` and `c.MOV` keeps `a.mp4` and `c.MOV` only. */
  lemma ScanExample()
    ensures VideoFiles(["a.mp4", "b.txt", "c.MOV"]) == ["a.mp4", "c.MOV"]
  {
    VideoFileExamples();
    var l := ["a.mp4", "b.txt", "c.MOV"];
    assert l[..2] == ["a.mp4", "b.txt"] && l[..2][..1] == ["a.mp4"] && l[..2][..1][..0] == [];
  }

  // ---------------------------------------------------------------------
  // Summaries and the filter mode
  // ---------------------------------------------------------------------

  /** `{"path", "name", "annotation_count", "is_annotated"}`. */
  datatype Summary = Summary(path: string, name: string, annotationCount: nat, isAnnotated: bool)

  /** The summary `index` builds for one listed path. */
  function Summarize(store: Store, videoPath: string): (v: Summary)
    ensures v.path == videoPath && v.name == Basename(videoPath)
    ensures v.annotationCount == if videoPath in store.items then |store.items[videoPath]| else 0
    ensures v.isAnnotated <==> v.annotationCount > 0
  {
    var annotations := Get(store, videoPath);
    Summary(videoPath, Basename(videoPath), |annotations|, |annotations| > 0)
  }

  /** The summaries that survive the `continue` of the filter mode. */
  predicate Shown(filterMode: string, v: Summary) {
    !((filterMode == "annotated" && !v.isAnnotated) || (filterMode == "not_annotated" && v.isAnnotated))
  }

  /** The summaries of the listed paths that the mode shows, in listing order. */
  function Filtered(store: Store, paths: seq<string>, filterMode: string): (vs: seq<Summary>)
    ensures |vs| <= |paths|
    ensures filterMode != "annotated" && filterMode != "not_annotated" ==> |vs| == |paths|
  {
    if paths == [] then []
    else
      var v := Summarize(store, paths[|paths| - 1]);
      Filtered(store, paths[..|paths| - 1], filterMode) + (if Shown(filterMode, v) then [v] else [])
  }

  /**
   * Filtering only removes: a summary is kept exactly when its path is listed
   * and the mode shows it, so "annotated" keeps annotated videos only and
   * "not_annotated" the others.
   */
  lemma {:induction false} FilteredMembers(store: Store, paths: seq<string>, filterMode: string)
    ensures forall v :: v in Filtered(store, paths, filterMode) <==>
      v.path in paths && v == Summarize(store, v.path) && Shown(filterMode, v)
    ensures filterMode == "annotated" ==> forall v :: v in Filtered(store, paths, filterMode) ==> v.isAnnotated
    ensures filterMode == "not_annotated" ==> forall v :: v in Filtered(store, paths, filterMode) ==> !v.isAnnotated
  {
    if paths != [] {
      FilteredMembers(store, paths[..|paths| - 1], filterMode);
      assert paths == paths[..|paths| - 1] + [paths[|paths| - 1]];
    }
  }

  // ---------------------------------------------------------------------
  // The sort: key (not is_annotated, name.lower()), stable
  // ---------------------------------------------------------------------

  /** Python's `<=` on strings: code-point lexicographic order. */
  predicate StrLeq(a: string, b: string) {
    if a == [] then true
    else if b == [] then false
    else if a[0] != b[0] then a[0] < b[0]
    else StrLeq(a[1..], b[1..])
  }

  lemma {:induction false} StrLeqReflexive(a: string)
    ensures StrLeq(a, a)
  {
    if a != [] { StrLeqReflexive(a[1..]); }
  }

  lemma {:induction false} StrLeqTotal(a: string, b: string)
    ensures StrLeq(a, b) || StrLeq(b, a)
  {
    if a != [] && b != [] && a[0] == b[0] { StrLeqTotal(a[1..], b[1..]); }
  }

  lemma {:induction false} StrLeqTransitive(a: string, b: string, c: string)
    requires StrLeq(a, b) && StrLeq(b, c)
    ensures StrLeq(a, c)
  {
    if a != [] && b != [] && c != [] && a[0] == b[0] && b[0] == c[0] {
      StrLeqTransitive(a[1..], b[1..], c[1..]);
    }
  }

  /** The sort key `(not x["is_annotated"], x["name"].lower())`. */
  function SortKey(v: Summary): (bool, string) {
    (!v.isAnnotated, Lower(v.name))
  }

  /** Tuple order on sort keys: `False < True`, then the names. */
  predicate KeyLeq(v: Summary, w: Summary) {
    var (a, x) := SortKey(v);
    var (b, y) := SortKey(w);
    (!a && b) || (a == b && StrLeq(x, y))
  }

  lemma KeyLeqTotal(v: Summary, w: Summary)
    ensures KeyLeq(v, w) || KeyLeq(w, v)
  {
    StrLeqTotal(Lower(v.name), Lower(w.name));
  }

  lemma KeyLeqTransitive(u: Summary, v: Summary, w: Summary)
    requires KeyLeq(u, v) && KeyLeq(v, w)
    ensures KeyLeq(u, w)
  {
    if u.isAnnotated == v.isAnnotated == w.isAnnotated {
      StrLeqTransitive(Lower(u.name), Lower(v.name), Lower(w.name));
    }
  }

  /** Two summaries with the same key are in order either way round. */
  lemma KeyLeqOfEqualKeys(v: Summary, w: Summary)
    requires SortKey(v) == SortKey(w)
    ensures KeyLeq(v, w)
  {
    StrLeqReflexive(Lower(v.name));
  }

  /** A summary that sorts after another has a different key. */
  lemma OutOfOrderKeysDiffer(v: Summary, w: Summary)
    requires !KeyLeq(v, w)
    ensures SortKey(v) != SortKey(w)
  {
    if SortKey(v) == SortKey(w) {
      KeyLeqOfEqualKeys(v, w);
    }
  }

  predicate Sorted(vs: seq<Summary>) {
    forall i, j :: 0 <= i < j < |vs| ==> KeyLeq(vs[i], vs[j])
  }

  /** The summaries of `vs` whose sort key is `key`, in their order in `vs`. */
  function WithKey(vs: seq<Summary>, key: (bool, string)): seq<Summary> {
    if vs == [] then []
    else WithKey(vs[..|vs| - 1], key) + (if SortKey(vs[|vs| - 1]) == key then [vs[|vs| - 1]] else [])
  }

  /** Insert `x` after every element whose key is at most its own. */
  function Insert(vs: seq<Summary>, x: Summary): (r: seq<Summary>)
    ensures multiset(r) == multiset(vs) + multiset{x}
  {
    if vs == [] || KeyLeq(vs[|vs| - 1], x) then vs + [x]
    else
      assert vs == vs[..|vs| - 1] + [vs[|vs| - 1]];
      Insert(vs[..|vs| - 1], x) + [vs[|vs| - 1]]
  }

  lemma {:induction false} InsertSorted(vs: seq<Summary>, x: Summary)
    requires Sorted(vs)
    ensures Sorted(Insert(vs, x))
  {
    if vs == [] || KeyLeq(vs[|vs| - 1], x) {
      forall i | 0 <= i < |vs| ensures KeyLeq(vs[i], x) {
        if i < |vs| - 1 { KeyLeqTransitive(vs[i], vs[|vs| - 1], x); }
      }
    } else {
      var init := vs[..|vs| - 1];
      var last := vs[|vs| - 1];
      InsertSorted(init, x);
      KeyLeqTotal(last, x);
      var r := Insert(init, x);
      forall i | 0 <= i < |r| ensures KeyLeq(r[i], last) {
        assert r[i] in multiset(r);
        assert r[i] in init || r[i] == x;
      }
    }
  }

  lemma {:induction false} InsertStable(vs: seq<Summary>, x: Summary, key: (bool, string))
    ensures WithKey(Insert(vs, x), key) == WithKey(vs, key) + (if SortKey(x) == key then [x] else [])
  {
    if vs == [] || KeyLeq(vs[|vs| - 1], x) {
      assert Insert(vs, x) == vs + [x];
      WithKeySnoc(vs, x, key);
    } else {
      var init := vs[..|vs| - 1];
      var last := vs[|vs| - 1];
      var r := Insert(init, x);
      assert Insert(vs, x) == r + [last];
      assert vs == init + [last];
      InsertStable(init, x, key);
      WithKeySnoc(r, last, key);
      WithKeySnoc(init, last, key);
      OutOfOrderKeysDiffer(last, x);
      var w := WithKey(init, key);
      if SortKey(x) == key {
        assert WithKey(vs, key) == w + [];
        assert WithKey(r + [last], key) == (w + [x]) + [];
      } else if SortKey(last) == key {
        assert WithKey(r, key) == w + [];
        assert WithKey(r + [last], key) == (w + []) + [last];
      } else {
        assert WithKey(r, key) == w + [];
        assert WithKey(r + [last], key) == (w + []) + [];
        assert WithKey(vs, key) == w + [];
      }
    }
  }

  lemma WithKeySnoc(vs: seq<Summary>, x: Summary, key: (bool, string))
    ensures WithKey(vs + [x], key) == WithKey(vs, key) + (if SortKey(x) == key then [x] else [])
  {
    assert (vs + [x])[..|vs|] == vs;
  }

  /** `videos.sort(key=...)`: Python's stable sort, written as an insertion sort. */
  function SortVideos(vs: seq<Summary>): (r: seq<Summary>)
    ensures multiset(r) == multiset(vs)
    ensures Sorted(r)
  {
    if vs == [] then []
    else
      var sorted := SortVideos(vs[..|vs| - 1]);
      InsertSorted(sorted, vs[|vs| - 1]);
      assert vs == vs[..|vs| - 1] + [vs[|vs| - 1]];
      Insert(sorted, vs[|vs| - 1])
  }

  /**
   * The sort is stable: the summaries sharing a key keep their relative order.
   * With `Sorted` and equal multisets this determines the result.
   */
  lemma {:induction false} SortVideosStable(vs: seq<Summary>, key: (bool, string))
    ensures WithKey(SortVideos(vs), key) == WithKey(vs, key)
  {
    if vs != [] {
      SortVideosStable(vs[..|vs| - 1], key);
      InsertStable(SortVideos(vs[..|vs| - 1]), vs[|vs| - 1], key);
    }
  }

  /** Every annotated summary of a sorted list precedes every other one. */
  lemma AnnotatedFirst(vs: seq<Summary>, i: int, j: int)
    requires Sorted(vs) && 0 <= i < |vs| && 0 <= j < |vs|
    requires vs[i].isAnnotated && !vs[j].isAnnotated
    ensures i < j
  {
  }

  /** Within the annotated group and within the other group, lower-cased names never decrease. */
  lemma NamesInOrder(vs: seq<Summary>, i: int, j: int)
    requires Sorted(vs) && 0 <= i < j < |vs|
    requires vs[i].isAnnotated == vs[j].isAnnotated
    ensures StrLeq(Lower(vs[i].name), Lower(vs[j].name))
  {
    assert KeyLeq(vs[i], vs[j]);
  }

  // ---------------------------------------------------------------------
  // index
  // ---------------------------------------------------------------------

  /**
   * The list part of `index`: the summaries of the listed videos that the
   * filter mode shows, sorted, with the counts the page displays
   * (`total_videos`, `displayed_videos`).
   */
  method Index(store: Store, directory: string, listing: seq<string>, filterMode: string)
    returns (videos: seq<Summary>, totalVideos: nat, displayedVideos: nat)
    ensures videos == SortVideos(Filtered(store, AllVideos(directory, listing), filterMode))
    ensures totalVideos == |VideoFiles(listing)| && displayedVideos == |videos| <= totalVideos
    ensures filterMode != "annotated" && filterMode != "not_annotated" ==> displayedVideos == totalVideos
    ensures Sorted(videos)
  {
    var allVideoPaths := GetAllVideos(directory, listing);
    var filtered := [];
    for i := 0 to |allVideoPaths|
      invariant filtered == Filtered(store, allVideoPaths[..i], filterMode)
    {
      var videoPath := allVideoPaths[i];
      var annotations := Get(store, videoPath);
      var isAnnotated := |annotations| > 0;
      FilteredStep(store, allVideoPaths, i, filterMode);
      if (filterMode == "annotated" && !isAnnotated) || (filterMode == "not_annotated" && isAnnotated) {
        continue;
      }
      var summary := Summary(videoPath, Basename(videoPath), |annotations|, isAnnotated);
      assert summary == Summarize(store, videoPath);
      filtered := filtered + [summary];
    }
    assert allVideoPaths[..|allVideoPaths|] == allVideoPaths;
    videos := SortVideos(filtered);
    SortVideosMembers(filtered);
    totalVideos := |allVideoPaths|;
    displayedVideos := |videos|;
  }

  /** One iteration of the summary loop of `index`. */
  lemma FilteredStep(store: Store, paths: seq<string>, i: nat, filterMode: string)
    requires i < |paths|
    ensures Shown(filterMode, Summarize(store, paths[i])) ==>
      Filtered(store, paths[..i + 1], filterMode) == Filtered(store, paths[..i], filterMode) + [Summarize(store, paths[i])]
    ensures !Shown(filterMode, Summarize(store, paths[i])) ==>
      Filtered(store, paths[..i + 1], filterMode) == Filtered(store, paths[..i], filterMode)
  {
    assert paths[..i + 1][..i] == paths[..i];
  }

  /** The paths `get_all_videos` returns, as a value. */
  function AllVideos(directory: string, listing: seq<string>): (paths: seq<string>)
    ensures |paths| == |VideoFiles(listing)|
  {
    seq(|VideoFiles(listing)|, i requires 0 <= i < |VideoFiles(listing)| => Join(directory, VideoFiles(listing)[i]))
  }

  /** A path is listed exactly when it is a video entry of the directory joined to it. */
  lemma AllVideosMembers(directory: string, listing: seq<string>)
    ensures forall p :: p in AllVideos(directory, listing) <==>
      exists f :: f in listing && IsVideoFile(f) && p == Join(directory, f)
  {
    var names := VideoFiles(listing);
    var paths := AllVideos(directory, listing);
    forall f | f in names ensures Join(directory, f) in paths {
      var k :| 0 <= k < |names| && names[k] == f;
      assert paths[k] == Join(directory, f);
    }
  }

  /** Sorting neither adds nor drops a summary. */
  lemma SortVideosMembers(vs: seq<Summary>)
    ensures |SortVideos(vs)| == |vs|
    ensures forall v :: v in SortVideos(vs) <==> v in vs
  {
    var r := SortVideos(vs);
    assert |r| == |multiset(r)| == |multiset(vs)| == |vs|;
    forall v ensures v in r <==> v in vs {
      assert v in r <==> v in multiset(r);
    }
  }

  /**
   * What the page lists: exactly the summaries of the listed video files
   * that the mode shows, annotated ones first, names in order within each
   * group, and summaries with equal keys in listing order.
   */
  lemma IndexListing(store: Store, directory: string, listing: seq<string>, filterMode: string)
    ensures var videos := SortVideos(Filtered(store, AllVideos(directory, listing), filterMode));
      && (forall v :: v in videos <==>
            Shown(filterMode, v) && exists f :: f in listing && IsVideoFile(f) && v == Summarize(store, Join(directory, f)))
      && (forall key :: WithKey(videos, key) == WithKey(Filtered(store, AllVideos(directory, listing), filterMode), key))
  {
    var filtered := Filtered(store, AllVideos(directory, listing), filterMode);
    FilteredMembers(store, AllVideos(directory, listing), filterMode);
    AllVideosMembers(directory, listing);
    SortVideosMembers(filtered);
    forall key ensures WithKey(SortVideos(filtered), key) == WithKey(filtered, key) {
      SortVideosStable(filtered, key);
    }
  }
}
