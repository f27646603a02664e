# video_annotation: a Dafny model of the annotation store

The video annotation tool keeps one JSON document. It maps each video-path
string to that video's time-range annotations (`{start_time, end_time}`),
in insertion order. This project models three pieces of code that work on
that store and proves what they do:

- **`backend/app.py`**:
  - the video list of the index page: `get_all_videos` keeps the directory
    entries with a video extension; `index` builds a summary per video, drops
    those the filter mode hides and sorts annotated videos first, then by
    lower-cased name;
  - the store updates of `add_annotation` (a validated append) and
    `delete_annotation` (a bounds-checked positional removal).
- **`fix_annotations.py`**: `fix_annotation_data`, which maps every key
  through `normalize_path`, unites the lists that meet under one normalized
  key without structural duplicates in first-seen order, reports which raw
  keys were folded into each normalized key, and decides whether anything
  changed.
- **`backend/models.py`**: the `Annotation` record with `to_dict` and
  `from_dict`.

Modules:

| file | module | contents |
|---|---|---|
| `wrappers.dfy` | `Wrappers` | `Result` |
| `dicts.dfy` | `Dicts` | insertion-ordered string-keyed dictionaries (`Dict`: key order plus map), `Distinct`, first-occurrence `Dedup` |
| `annotations.dfy` | `Annotations` | the `Annotation` record, `to_dict` / `from_dict` |
| `store.dfy` | `AnnotationStore` | the store type, `annotation_data.get(path, [])` |
| `ops.dfy` | `AnnotationOps` | add and delete |
| `videos.dfy` | `VideoList` | extension filter, `os.path.join` / `basename`, summaries, filter mode, the stable sort, `index` |
| `reconcile.dfy` | `Reconcile` | the merge loop, its closed-form specification and the properties of the merge |

How the model is built:

- **Dictionaries.** A Python dict is a `Dict<V>` value. It holds the
  insertion order of its keys and the map from key to value, and `Valid()`
  says the two agree. Python's `==` on dicts ignores order, so the
  "changed" decision compares the maps only.
- **Add and delete.** `add_annotation` and `delete_annotation` load a fresh
  copy of the store, change it and save it. They are modelled as functions
  from the loaded store to `Ok(new store)` or `Err(reason)`; `Err` means
  nothing is saved.
- **Loops.** The summary loop of `index`, the listing loop of
  `get_all_videos` and the nested loops of `fix_annotation_data` are
  methods with loops. Each is proved equal to a specification function, and
  the lemmas state the properties about those functions.
- **The merge key.** `normalize_path` (realpath, then abspath, then
  normpath) is not modelled: the merge takes it as a parameter
  `normalize: string -> string`. Lemmas that need it to be idempotent say
  so in a `requires Idempotent(normalize)`.
- **Times.** Times are `real`. The code only compares and stores them.

Where the project's design description and the code disagree, the model
follows the code:

- **Lone renamed keys.** The design description leaves groups with a single
  original key out of the merge report. The code reports every non-empty
  `merged_paths` entry, so a lone key that only changed form is reported as
  a group of one (`LoneRenamedKeyReported`).
- **Merging single keys.** The design description merges only groups of
  two or more keys. The code deduplicates every list, including a single
  key's list that repeats a record.
- **Add then delete.** The design description says add followed by delete
  restores the store. In the code, a path that was absent stays behind as
  an empty list (`AddThenDeleteLast`).
- **No error handling of that kind.** The design description mentions an
  error on a corrupt document, quarantine of entries whose path cannot be
  normalized, an orphan finder, an atomic save and a write lock. None of
  these exist in the code.

## Model

| member | source | states |
|---|---|---|
| Annotations.ToDict | backend/models.py:6-7 | the dictionary has exactly the keys `start_time` and `end_time`, bound to the record's two fields |
| Annotations.FromDict | backend/models.py:9-11 | succeeds iff both keys are present, with the record holding exactly those two values (no start < end check); a missing key fails with a `KeyError` naming `start_time` if that one is missing, else `end_time` |
| Annotations.FromDictToDict | backend/models.py:2-11 | reading back a record's own dictionary gives the same record: the constructor stores both times unchanged |
| Annotations.ToDictFromDict | backend/models.py:6-11 | a dictionary with exactly the two keys survives the trip through a record unchanged |
| Annotations.ToDictInjective | backend/models.py:6-7 | two records have equal dictionaries iff they are equal, so structural equality of stored dictionaries is record equality |
| Dicts.Dict.Put | backend/app.py:173-174 | assigning `d[k] = v` keeps the dictionary well-formed, binds `k` to `v` and leaves other keys alone; `k` is appended to the insertion order only if new |
| Dicts.DedupOfDistinct | fix_annotations.py:45-47 | appending each element not yet present leaves a repeat-free sequence as it is |
| Dicts.DedupFirstOccurrenceOrder | fix_annotations.py:45-47 | the kept elements come in the order of their first occurrences |
| AnnotationOps.AddAnnotation | backend/app.py:167-176 | fails with `InvalidRange` iff `start_time >= end_time`. On success: the path's list gains exactly one element, at its end, holding the new record, the old list as its prefix; an absent path is first created and appended to the key order; every other key and list is unchanged |
| AnnotationOps.DeleteAnnotation | backend/app.py:222-231 | fails with `NotFound` iff the path is absent or the index is outside `[0, len)`. On success: the keys are unchanged; the list is one shorter; elements before the index stay, later ones shift down by one, and exactly the indexed record is gone (as a multiset); other lists are unchanged |
| AnnotationOps.AddThenDeleteLast | backend/app.py:173-176 | a valid add followed by a delete at the old length restores that path's list. The whole store comes back iff the path was present; a new path stays behind as an empty list at the end of the key order |
| VideoList.VideoFileExamples | backend/app.py:52 | the extension test ignores case: `a.mp4` and `c.MOV` pass, `b.txt` does not |
| VideoList.VideoFiles | backend/app.py:51-52 | a listed name is kept iff its lower-cased form ends in `.mp4`, `.avi`, `.mov` or `.mkv`; never more names than listed |
| VideoList.GetAllVideos | backend/app.py:47-58 | the loop returns the kept names in listing order, each joined to the directory |
| VideoList.AllVideosMembers | backend/app.py:51-54 | a path is returned iff it is the directory joined to a listed name with a video extension |
| VideoList.ScanExample | backend/app.py:51-54 | the listing `a.mp4`, `b.txt`, `c.MOV` yields `a.mp4`, `c.MOV` |
| VideoList.BasenameOfJoin | backend/app.py:80 | the displayed name (`basename`) of a joined path is the directory entry's own name |
| VideoList.Summarize | backend/app.py:71-88 | path and name as listed; `annotation_count` is the stored list's length, or 0 for an absent path; `is_annotated` iff that count is > 0 |
| VideoList.Filtered | backend/app.py:74-78 | filtering never adds entries; any mode other than `annotated` / `not_annotated` keeps every video |
| VideoList.FilteredMembers | backend/app.py:75-78 | a summary survives iff its path is listed and the mode shows it: `annotated` keeps only annotated videos, `not_annotated` only the others |
| VideoList.SortVideos | backend/app.py:91 | the sorted list is a permutation of its input, ordered by the key (not annotated, lower-cased name) |
| VideoList.SortVideosStable | backend/app.py:91 | the sort is stable: the summaries sharing a key keep their relative order |
| VideoList.SortVideosMembers | backend/app.py:91 | sorting keeps the length and the set of summaries |
| VideoList.AnnotatedFirst | backend/app.py:91 | in the sorted list every annotated summary precedes every non-annotated one |
| VideoList.NamesInOrder | backend/app.py:91 | within each of the two groups, lower-cased names never decrease |
| VideoList.Index | backend/app.py:62-120 | the summary loop with its `continue` produces the filtered summaries, sorted; `total_videos` is the number of video entries, `displayed_videos` the number shown, at most the total and equal to it in any other mode |
| VideoList.IndexListing | backend/app.py:70-91 | the page lists exactly the summaries of the listed video files that the mode shows, with equal-key summaries in listing order |
| Reconcile.FixAnnotationData | fix_annotations.py:26-73 | the two loops produce exactly the closed-form merge: keys are the normalized keys in first-produced order; each list is the deduplicated concatenation of the lists of the keys meeting there; `merged_paths` holds the keys that changed form; the report is the non-empty entries; changed iff the new map differs from the input |
| Reconcile.RecordPath | fix_annotations.py:34-38 | the entry of the normalized key is created empty if missing, then the raw key is appended iff it differs from its normal form; nothing else changes |
| Reconcile.AddAnnotations | fix_annotations.py:40-47 | the entry of the normalized key is created if missing; a list that deduplicates the group so far becomes the deduplication of the group followed by the key's records; nothing else changes |
| Reconcile.AppendMissing | fix_annotations.py:44-47 | appending each record not yet in the list turns the deduplication of a sequence into the deduplication of that sequence followed by the records |
| Reconcile.ReportMerged | fix_annotations.py:50-56 | the report lists exactly the non-empty `merged_paths` entries, in key order |
| Reconcile.MergeKeepsData | fix_annotations.py:29-47 | the new key set is exactly `{normalize(k)}` over the input keys; no record is lost; none is invented; no list holds two equal records |
| Reconcile.MergeOrder | fix_annotations.py:45-47 | each new list holds its records in the order of first occurrence, scanning keys in insertion order and each list front to back |
| Reconcile.MergeKeyOrder | fix_annotations.py:29-42 | the new keys come in the order their normal forms are first produced |
| Reconcile.MergedPathsContents | fix_annotations.py:34-38 | `merged_paths` has the same keys as the new data, and `merged_paths[n]` holds exactly the input keys that normalize to `n` and differ from it, each once |
| Reconcile.ReportMembers | fix_annotations.py:51-52 | a pair is reported iff its key is in `merged_paths` with that non-empty list |
| Reconcile.LoneRenamedKeyReported | fix_annotations.py:34-56 | a key that is alone under its normal form but differs from it is reported, as a group of one |
| Reconcile.MergeOfCanonical | fix_annotations.py:26-59 | a store whose keys are normal forms and whose lists have no repeats is given back unchanged, and nothing is reported |
| Reconcile.MergeIsCanonical | fix_annotations.py:29-47 | with an idempotent `normalize`, the merge output has only normal-form keys and repeat-free lists |
| Reconcile.MergeIdempotent | fix_annotations.py:59-73 | with an idempotent `normalize`, merging the merge's own output gives it back with an empty report, so a second run takes the "no changes" branch |
| Reconcile.ChangedIffNotCanonical | fix_annotations.py:59-73 | with an idempotent `normalize`, the file is rewritten iff some key is not in normal form or some list repeats a record |

## Left out

- HTTP plumbing: routing, templates, `flash`, redirects, video serving, and the `jump_to_annotation`, `filter_videos` and `select_video` handlers. These are request wrappers around the modelled code.
- The selected-video part of `index` (backend/app.py:93-110), with its base64 decoding and `os.path.exists` check. Base64 is a library call.
- JSON file I/O: `load_annotations`, `save_annotations` and backend/utils.py, its fallback that turns a load error into an empty store, and the backup and rewrite of `fix_annotation_data`. Stores are values passed in and returned; `changed` is the value on which the backup and rewrite depend. The catch-all `except` of `fix_annotation_data` is an I/O error path and is not modelled.
- `os.listdir` is an input sequence of names. Its ordering and failure (which yields an empty list) are up to the caller.
- `normalize_path` (realpath, abspath, normpath) is the parameter `normalize`. Symbolic links and the current directory are outside the model.
- Form parsing: the missing-field checks and `float()` / `int()` conversions of backend/app.py:156-165 and 210-218. The model starts after parsing.
- AddAnnotation: times are `real`, so NaN is not modelled. A NaN time makes `start_time >= end_time` false in Python and is stored, which the model cannot express.
- VideoList.Lower: lower-cases the ASCII letters only. Python's `str.lower` also folds other alphabets, which the extension test and the sort key could meet.
- VideoList.Basename: follows POSIX `posixpath.basename` only. Windows separators are not modelled.
- VideoList.StrLeq: orders strings by code point, as Python does, on Dafny `char`s. Surrogate pairs are not modelled.
- Reconcile.FixAnnotationData: the console report is returned as data (normalized key, folded keys). The printed base names, counts and other progress messages are output only.
- Stored records are modelled as two-field `Annotation` values. A JSON list element with other keys or value types is outside the model.
- benchmark.py (data generation, ffmpeg, threads) and frontend/script.js (browser client) are not part of this model.
- Locking, atomic save, orphan detection and quarantine of entries whose path cannot be normalized do not exist in the code, so there is nothing to model.
