/**
 * `fix_annotation_data` of fix_annotations.py: every key of the store is
 * mapped through `normalize_path`, the lists of keys that meet under one
 * normalized key are united without structural duplicates in first-seen
 * order, and a report records which raw keys were folded into each
 * normalized key. `normalize_path` (realpath, abspath, normpath) is kept
 * abstract: the merge takes it as a parameter `normalize`.
 */
module Reconcile {
  import opened Dicts
  import opened Annotations
  import opened AnnotationStore

  /**
   * The one assumption some lemmas make about `normalize_path`: normalizing
   * a normalized path changes nothing.
   */
  ghost predicate Idempotent(normalize: string -> string) {
    forall p :: normalize(normalize(p)) == normalize(p)
  }

  predicate KeysIn<V>(keys: seq<string>, items: map<string, V>) {
    forall k :: k in keys ==> k in items
  }

  /** The normalized form of each key, in key order (repeats kept). */
  function NormalizeAll(keys: seq<string>, normalize: string -> string): (ns: seq<string>)
    ensures |ns| == |keys|
    ensures forall i :: 0 <= i < |keys| ==> ns[i] == normalize(keys[i])
  {
    if keys == [] then [] else NormalizeAll(keys[..|keys| - 1], normalize) + [normalize(keys[|keys| - 1])]
  }

  /** The lists of the keys that normalize to `n`, concatenated in key order. */
  function Group(keys: seq<string>, items: map<string, AnnotationList>, normalize: string -> string, n: string): AnnotationList
    requires KeysIn(keys, items)
  {
    if keys == [] then []
    else
      var last := keys[|keys| - 1];
      Group(keys[..|keys| - 1], items, normalize, n) + (if normalize(last) == n then items[last] else [])
  }

  /** The keys that normalize to `n` without being `n` already, in key order. */
  function Folded(keys: seq<string>, normalize: string -> string, n: string): seq<string> {
    if keys == [] then []
    else
      var last := keys[|keys| - 1];
      Folded(keys[..|keys| - 1], normalize, n) + (if normalize(last) == n && last != n then [last] else [])
  }

  /**
   * `new_data` after the keys `keys` have been processed: one entry per
   * distinct normalized key, in the order first produced, holding the
   * group's records with repeats dropped.
   */
  function MergedData(keys: seq<string>, items: map<string, AnnotationList>, normalize: string -> string): (d: Store)
    requires KeysIn(keys, items)
    ensures d.Valid()
  {
    var normKeys := Dedup(NormalizeAll(keys, normalize));
    Dict(normKeys, map n | n in normKeys :: Dedup(Group(keys, items, normalize, n)))
  }

  /** `merged_paths` after the keys `keys` have been processed. */
  function MergedPaths(keys: seq<string>, normalize: string -> string): (d: Dict<seq<string>>)
    ensures d.Valid()
  {
    var normKeys := Dedup(NormalizeAll(keys, normalize));
    Dict(normKeys, map n | n in normKeys :: Folded(keys, normalize, n))
  }

  /** The groups the "Path merging results" report prints: the non-empty ones, in order. */
  function Report(keys: seq<string>, items: map<string, seq<string>>): seq<(string, seq<string>)>
    requires KeysIn(keys, items)
  {
    if keys == [] then []
    else
      var last := keys[|keys| - 1];
      Report(keys[..|keys| - 1], items) + (if items[last] != [] then [(last, items[last])] else [])
  }

  // ---------------------------------------------------------------------
  // The loop of fix_annotation_data
  // ---------------------------------------------------------------------

  /**
   * The merge and report of `fix_annotation_data`, with the file reads and
   * writes left to the caller: `changed` is the answer to "are there changes
   * to save", on which the backup and the rewrite depend.
   */
  method FixAnnotationData(annotationData: Store, normalize: string -> string)
    returns (newData: Store, mergedPaths: Dict<seq<string>>, report: seq<(string, seq<string>)>, changed: bool)
    requires annotationData.Valid()
    ensures newData == MergedData(annotationData.keys, annotationData.items, normalize)
    ensures mergedPaths == MergedPaths(annotationData.keys, normalize)
    ensures report == Report(mergedPaths.keys, mergedPaths.items)
    ensures changed <==> newData.items != annotationData.items
  {
    var keys, items := annotationData.keys, annotationData.items;
    newData := Empty();
    mergedPaths := Empty();
    for i := 0 to |keys|
      invariant DataAfter(newData, keys[..i], items, normalize)
      invariant PathsAfter(mergedPaths, keys[..i], normalize)
    {
      var path := keys[i];
      var annotations := items[path];
      var normPath := normalize(path);
      assert keys[..i + 1] == keys[..i] + [path];
      ghost var oldData, oldPaths := newData, mergedPaths;

      mergedPaths := RecordPath(mergedPaths, path, normPath);
      PathsStep(oldPaths, mergedPaths, keys[..i], path, normalize);

      ghost var group := Group(keys[..i], items, normalize, normPath);
      DataBeforeStep(oldData, keys[..i], items, normalize, normPath);
      newData := AddAnnotations(newData, normPath, annotations, group);
      DataStep(oldData, newData, keys[..i], path, items, normalize);
    }
    assert keys[..|keys|] == keys;
    DataAfterIsMerged(newData, keys, items, normalize);
    PathsAfterIsMerged(mergedPaths, keys, normalize);

    report := ReportMerged(mergedPaths);

    // Only save if there were changes
    changed := newData.items != annotationData.items;
  }

  /** Keep track of path normalization for reporting: `path` is listed under `normPath` unless it is `normPath`. */
  method RecordPath(mergedPaths: Dict<seq<string>>, path: string, normPath: string) returns (after: Dict<seq<string>>)
    requires mergedPaths.Valid()
    ensures
      var folded := if normPath in mergedPaths.items then mergedPaths.items[normPath] else [];
      UpdatedAt(mergedPaths, after, normPath, folded + (if path != normPath then [path] else []))
  {
    after := mergedPaths;
    if normPath !in after.items {
      after := after.Put(normPath, []);
    }
    if path != normPath {
      after := after.Put(normPath, after.items[normPath] + [path]);
    } else {
      assert after.items[normPath] + [] == after.items[normPath];
    }
  }

  /**
   * Add annotations to the normalized path: the entry `normPath`, created
   * empty if missing, receives the records of `annotations` it does not hold.
   */
  method AddAnnotations(newData: Store, normPath: string, annotations: AnnotationList, ghost group: AnnotationList)
    returns (after: Store)
    requires newData.Valid()
    requires (if normPath in newData.items then newData.items[normPath] else []) == Dedup(group)
    ensures UpdatedAt(newData, after, normPath, Dedup(group + annotations))
  {
    after := newData;
    if normPath !in after.items {
      after := after.Put(normPath, []);
    }
    var merged := AppendMissing(after.items[normPath], annotations, group);
    after := after.Put(normPath, merged);
  }

  /** Report what was merged: the non-empty groups of `merged_paths`, in key order. */
  method ReportMerged(mergedPaths: Dict<seq<string>>) returns (report: seq<(string, seq<string>)>)
    requires mergedPaths.Valid()
    ensures report == Report(mergedPaths.keys, mergedPaths.items)
  {
    report := [];
    for i := 0 to |mergedPaths.keys|
      invariant report == Report(mergedPaths.keys[..i], mergedPaths.items)
    {
      var normPath := mergedPaths.keys[i];
      var oldPaths := mergedPaths.items[normPath];
      assert mergedPaths.keys[..i + 1][..i] == mergedPaths.keys[..i];
      if oldPaths != [] {
        report := report + [(normPath, oldPaths)];
      }
    }
    assert mergedPaths.keys[..|mergedPaths.keys|] == mergedPaths.keys;
  }

  /** A key that no processed key normalizes to has an empty group. */
  lemma {:induction false} UnseenGroup(keys: seq<string>, items: map<string, AnnotationList>, normalize: string -> string, n: string)
    requires KeysIn(keys, items)
    requires n !in NormalizeAll(keys, normalize)
    ensures Group(keys, items, normalize, n) == []
  {
    if keys != [] {
      var init := keys[..|keys| - 1];
      assert NormalizeAll(keys, normalize) == NormalizeAll(init, normalize) + [normalize(keys[|keys| - 1])];
      UnseenGroup(init, items, normalize, n);
    }
  }

  /** A key that no processed key normalizes to has nothing folded into it. */
  lemma {:induction false} UnseenFolded(keys: seq<string>, normalize: string -> string, n: string)
    requires n !in NormalizeAll(keys, normalize)
    ensures Folded(keys, normalize, n) == []
  {
    if keys != [] {
      var init := keys[..|keys| - 1];
      assert NormalizeAll(keys, normalize) == NormalizeAll(init, normalize) + [normalize(keys[|keys| - 1])];
      UnseenFolded(init, normalize, n);
    }
  }

  /** Appending a key adds its list to its own group only. */
  lemma GroupSnoc(pre: seq<string>, k: string, items: map<string, AnnotationList>, normalize: string -> string, m: string)
    requires KeysIn(pre + [k], items)
    ensures Group(pre + [k], items, normalize, m)
         == Group(pre, items, normalize, m) + (if normalize(k) == m then items[k] else [])
  {
    assert (pre + [k])[..|pre|] == pre;
  }

  /** Appending a key folds it into its own normal form only, and only if it differs from it. */
  lemma FoldedSnoc(pre: seq<string>, k: string, normalize: string -> string, m: string)
    ensures Folded(pre + [k], normalize, m) == Folded(pre, normalize, m) + (if normalize(k) == m && k != m then [k] else [])
  {
    assert (pre + [k])[..|pre|] == pre;
  }

  /** Appending a key appends its normal form. */
  lemma NormalizeAllSnoc(pre: seq<string>, k: string, normalize: string -> string)
    ensures NormalizeAll(pre + [k], normalize) == NormalizeAll(pre, normalize) + [normalize(k)]
  {
    assert (pre + [k])[..|pre|] == pre;
  }

  /**
   * The inner loop: append each record of `annotations` that the list does
   * not hold yet. On a list that is the deduplication of `group`, this
   * deduplicates `group + annotations`.
   */
  method AppendMissing(list: AnnotationList, annotations: AnnotationList, ghost group: AnnotationList)
    returns (merged: AnnotationList)
    requires list == Dedup(group)
    ensures merged == Dedup(group + annotations)
  {
    merged := list;
    assert group + annotations[..0] == group;
    for j := 0 to |annotations|
      invariant merged == Dedup(group + annotations[..j])
    {
      var annotation := annotations[j];
      DedupSnoc(group + annotations[..j], annotation);
      assert group + annotations[..j + 1] == (group + annotations[..j]) + [annotation];
      if annotation !in merged {
        merged := merged + [annotation];
      }
    }
    assert annotations[..|annotations|] == annotations;
  }

  /** `new_data` holds what the merge of the keys `keys` should hold, entry by entry. */
  ghost predicate DataAfter(newData: Store, keys: seq<string>, items: map<string, AnnotationList>, normalize: string -> string)
    requires KeysIn(keys, items)
  {
    && newData.Valid()
    && newData.keys == Dedup(NormalizeAll(keys, normalize))
    && forall n :: n in newData.items ==> newData.items[n] == Dedup(Group(keys, items, normalize, n))
  }

  /** `merged_paths` holds what the merge of the keys `keys` should hold, entry by entry. */
  ghost predicate PathsAfter(mergedPaths: Dict<seq<string>>, keys: seq<string>, normalize: string -> string) {
    && mergedPaths.Valid()
    && mergedPaths.keys == Dedup(NormalizeAll(keys, normalize))
    && forall n :: n in mergedPaths.items ==> mergedPaths.items[n] == Folded(keys, normalize, n)
  }

  /** The list the inner loop starts from is the deduplicated group so far. */
  lemma DataBeforeStep(newData: Store, pre: seq<string>, items: map<string, AnnotationList>, normalize: string -> string, n: string)
    requires KeysIn(pre, items) && DataAfter(newData, pre, items, normalize)
    ensures (if n in newData.items then newData.items[n] else []) == Dedup(Group(pre, items, normalize, n))
  {
    if n !in newData.items {
      UnseenGroup(pre, items, normalize, n);
    }
  }

  /**
   * `after` is `before` with the entry `n` set to `v`: appended to the key
   * order if it is new, every other entry as it was.
   */
  ghost predicate UpdatedAt<V>(before: Dict<V>, after: Dict<V>, n: string, v: V) {
    && after.Valid()
    && after.keys == (if n in before.items then before.keys else before.keys + [n])
    && n in after.items && after.items[n] == v
    && (forall m :: m != n ==> (m in after.items <==> m in before.items))
    && (forall m :: m != n && m in before.items ==> m in after.items && after.items[m] == before.items[m])
  }

  /** One iteration of the outer loop keeps `new_data` in step with the keys processed. */
  lemma DataStep(before: Store, after: Store, pre: seq<string>, k: string, items: map<string, AnnotationList>, normalize: string -> string)
    requires KeysIn(pre + [k], items) && DataAfter(before, pre, items, normalize)
    requires UpdatedAt(before, after, normalize(k), Dedup(Group(pre, items, normalize, normalize(k)) + items[k]))
    ensures DataAfter(after, pre + [k], items, normalize)
  {
    var n := normalize(k);
    NormalizeAllSnoc(pre, k, normalize);
    DedupSnoc(NormalizeAll(pre, normalize), n);
    assert after.keys == Dedup(NormalizeAll(pre + [k], normalize));
    forall m | m in after.items
      ensures after.items[m] == Dedup(Group(pre + [k], items, normalize, m))
    {
      GroupSnoc(pre, k, items, normalize, m);
      if m != n {
        assert Group(pre + [k], items, normalize, m) == Group(pre, items, normalize, m) + [];
        assert Group(pre, items, normalize, m) + [] == Group(pre, items, normalize, m);
      }
    }
  }

  /** One iteration of the outer loop keeps `merged_paths` in step with the keys processed. */
  lemma PathsStep(before: Dict<seq<string>>, after: Dict<seq<string>>, pre: seq<string>, k: string, normalize: string -> string)
    requires PathsAfter(before, pre, normalize)
    requires
      var n := normalize(k);
      UpdatedAt(before, after, n, (if n in before.items then before.items[n] else []) + (if k != n then [k] else []))
    ensures PathsAfter(after, pre + [k], normalize)
  {
    var n := normalize(k);
    NormalizeAllSnoc(pre, k, normalize);
    DedupSnoc(NormalizeAll(pre, normalize), n);
    if n !in before.items {
      UnseenFolded(pre, normalize, n);
    }
    assert after.keys == Dedup(NormalizeAll(pre + [k], normalize));
    forall m | m in after.items
      ensures after.items[m] == Folded(pre + [k], normalize, m)
    {
      FoldedSnoc(pre, k, normalize, m);
      if m != n {
        assert Folded(pre + [k], normalize, m) == Folded(pre, normalize, m) + [];
        assert Folded(pre, normalize, m) + [] == Folded(pre, normalize, m);
      }
    }
  }

  lemma DataAfterIsMerged(newData: Store, keys: seq<string>, items: map<string, AnnotationList>, normalize: string -> string)
    requires KeysIn(keys, items) && DataAfter(newData, keys, items, normalize)
    ensures newData == MergedData(keys, items, normalize)
  {
    var out := MergedData(keys, items, normalize);
    assert newData.keys == out.keys;
    assert newData.items.Keys == out.items.Keys by {
      forall n ensures n in newData.items <==> n in out.items {
        assert n in newData.items <==> n in newData.keys;
      }
    }
    forall n | n in newData.items ensures newData.items[n] == out.items[n] {
    }
  }

  lemma PathsAfterIsMerged(mergedPaths: Dict<seq<string>>, keys: seq<string>, normalize: string -> string)
    requires PathsAfter(mergedPaths, keys, normalize)
    ensures mergedPaths == MergedPaths(keys, normalize)
  {
    var out := MergedPaths(keys, normalize);
    assert mergedPaths.keys == out.keys;
    assert mergedPaths.items.Keys == out.items.Keys by {
      forall n ensures n in mergedPaths.items <==> n in out.items {
        assert n in mergedPaths.items <==> n in mergedPaths.keys;
      }
    }
    forall n | n in mergedPaths.items ensures mergedPaths.items[n] == out.items[n] {
    }
  }

  // ---------------------------------------------------------------------
  // What the merge keeps
  // ---------------------------------------------------------------------

  lemma {:induction false} NormalizeAllMembers(keys: seq<string>, normalize: string -> string, n: string)
    ensures n in NormalizeAll(keys, normalize) <==> exists k :: k in keys && normalize(k) == n
  {
    var ns := NormalizeAll(keys, normalize);
    if exists k :: k in keys && normalize(k) == n {
      var k :| k in keys && normalize(k) == n;
      var i :| 0 <= i < |keys| && keys[i] == k;
      assert ns[i] == n;
    }
  }

  lemma {:induction false} GroupMembers(keys: seq<string>, items: map<string, AnnotationList>, normalize: string -> string, n: string, a: Annotation)
    requires KeysIn(keys, items)
    ensures a in Group(keys, items, normalize, n) <==> exists k :: k in keys && normalize(k) == n && a in items[k]
  {
    if keys != [] {
      var init := keys[..|keys| - 1];
      var last := keys[|keys| - 1];
      GroupMembers(init, items, normalize, n, a);
      assert keys == init + [last];
      if exists k :: k in keys && normalize(k) == n && a in items[k] {
        var k :| k in keys && normalize(k) == n && a in items[k];
        if k != last { assert k in init; }
      }
    }
  }

  /**
   * The keys of `new_data` are exactly the normalized input keys; no record
   * of the input is lost, none is invented, and no list holds two equal
   * records, even where one input list did.
   */
  lemma MergeKeepsData(data: Store, normalize: string -> string)
    requires data.Valid()
    ensures var out := MergedData(data.keys, data.items, normalize);
      && out.items.Keys == (set k | k in data.keys :: normalize(k))
      && (forall k, a :: k in data.keys && a in data.items[k] ==> normalize(k) in out.items && a in out.items[normalize(k)])
      && (forall n, a :: n in out.items && a in out.items[n] ==>
            exists k :: k in data.keys && normalize(k) == n && a in data.items[k])
      && (forall n :: n in out.items ==> Distinct(out.items[n]))
  {
    var out := MergedData(data.keys, data.items, normalize);
    forall n ensures n in out.items <==> n in (set k | k in data.keys :: normalize(k)) {
      NormalizeAllMembers(data.keys, normalize, n);
    }
    forall k, a | k in data.keys && a in data.items[k] ensures normalize(k) in out.items && a in out.items[normalize(k)] {
      NormalizeAllMembers(data.keys, normalize, normalize(k));
      GroupMembers(data.keys, data.items, normalize, normalize(k), a);
    }
    forall n, a | n in out.items && a in out.items[n]
      ensures exists k :: k in data.keys && normalize(k) == n && a in data.items[k]
    {
      GroupMembers(data.keys, data.items, normalize, n, a);
    }
  }

  /**
   * Order: each list of `new_data` holds its records in the order they are
   * first met when the input keys are scanned in insertion order and each
   * list front to back.
   */
  lemma MergeOrder(data: Store, normalize: string -> string)
    requires data.Valid()
    ensures var out := MergedData(data.keys, data.items, normalize);
      forall n, i, j :: n in out.items && 0 <= i < j < |out.items[n]| ==>
        var g := Group(data.keys, data.items, normalize, n);
        out.items[n][i] in g && out.items[n][j] in g && FirstIndex(g, out.items[n][i]) < FirstIndex(g, out.items[n][j])
  {
    var out := MergedData(data.keys, data.items, normalize);
    forall n | n in out.items {
      DedupFirstOccurrenceOrder(Group(data.keys, data.items, normalize, n));
    }
  }

  /** The keys of `new_data` come in the order their normal forms are first produced. */
  lemma MergeKeyOrder(data: Store, normalize: string -> string)
    requires data.Valid()
    ensures var out := MergedData(data.keys, data.items, normalize);
      forall i, j :: 0 <= i < j < |out.keys| ==>
        var ns := NormalizeAll(data.keys, normalize);
        out.keys[i] in ns && out.keys[j] in ns && FirstIndex(ns, out.keys[i]) < FirstIndex(ns, out.keys[j])
  {
    DedupFirstOccurrenceOrder(NormalizeAll(data.keys, normalize));
  }

  // ---------------------------------------------------------------------
  // What the report says
  // ---------------------------------------------------------------------

  lemma {:induction false} FoldedMembers(keys: seq<string>, normalize: string -> string, n: string)
    requires Distinct(keys)
    ensures forall k :: k in Folded(keys, normalize, n) <==> k in keys && normalize(k) == n && k != n
    ensures Distinct(Folded(keys, normalize, n))
  {
    if keys != [] {
      var init := keys[..|keys| - 1];
      assert keys == init + [keys[|keys| - 1]];
      FoldedMembers(init, normalize, n);
    }
  }

  lemma {:induction false} ReportMembers(keys: seq<string>, items: map<string, seq<string>>, n: string, old_paths: seq<string>)
    requires KeysIn(keys, items)
    ensures (n, old_paths) in Report(keys, items) <==> n in keys && items[n] == old_paths && old_paths != []
  {
    if keys != [] {
      var init := keys[..|keys| - 1];
      assert keys == init + [keys[|keys| - 1]];
      ReportMembers(init, items, n, old_paths);
    }
  }

  /**
   * `merged_paths[n]` lists exactly the raw keys that normalize to `n` and
   * differ from it, each once; it has an entry for every key of `new_data`.
   */
  lemma MergedPathsContents(data: Store, normalize: string -> string)
    requires data.Valid()
    ensures var mp := MergedPaths(data.keys, normalize);
      && mp.keys == MergedData(data.keys, data.items, normalize).keys
      && (forall n, k :: n in mp.items ==> (k in mp.items[n] <==> k in data.keys && normalize(k) == n && k != n))
      && (forall n :: n in mp.items ==> Distinct(mp.items[n]))
  {
    forall n | n in MergedPaths(data.keys, normalize).items {
      FoldedMembers(data.keys, normalize, n);
    }
  }

  /** Nothing is folded into `n` when no key normalizes to it from a different form. */
  lemma {:induction false} FoldedNone(keys: seq<string>, normalize: string -> string, n: string)
    requires forall j :: j in keys ==> !(normalize(j) == n && j != n)
    ensures Folded(keys, normalize, n) == []
  {
    if keys != [] {
      FoldedNone(keys[..|keys| - 1], normalize, n);
    }
  }

  /** The one key that normalizes to `n` from a different form is folded in alone. */
  lemma {:induction false} FoldedSingle(keys: seq<string>, normalize: string -> string, k: string)
    requires Distinct(keys) && k in keys && normalize(k) != k
    requires forall j :: j in keys && normalize(j) == normalize(k) ==> j == k
    ensures Folded(keys, normalize, normalize(k)) == [k]
  {
    var init := keys[..|keys| - 1];
    var last := keys[|keys| - 1];
    assert keys == init + [last];
    if last == k {
      FoldedNone(init, normalize, normalize(k));
    } else {
      assert Distinct(init);
      FoldedSingle(init, normalize, k);
    }
  }

  /**
   * A key that is alone under its normalized form but not equal to it is
   * still reported, as a group of one.
   */
  lemma LoneRenamedKeyReported(data: Store, normalize: string -> string, k: string)
    requires data.Valid() && k in data.keys && normalize(k) != k
    requires forall j :: j in data.keys && normalize(j) == normalize(k) ==> j == k
    ensures var mp := MergedPaths(data.keys, normalize);
      (normalize(k), [k]) in Report(mp.keys, mp.items)
  {
    var mp := MergedPaths(data.keys, normalize);
    var n := normalize(k);
    NormalizeAllMembers(data.keys, normalize, n);
    FoldedSingle(data.keys, normalize, k);
    assert n in mp.keys && mp.items[n] == [k];
    ReportMembers(mp.keys, mp.items, n, [k]);
  }

  // ---------------------------------------------------------------------
  // A second run, and the changed/unchanged decision
  // ---------------------------------------------------------------------

  /** A store whose every key is its own normal form and whose lists have no repeats. */
  ghost predicate Canonical(data: Store, normalize: string -> string) {
    forall k :: k in data.items ==> normalize(k) == k && Distinct(data.items[k])
  }

  lemma {:induction false} GroupOfCanonical(keys: seq<string>, items: map<string, AnnotationList>, normalize: string -> string, n: string)
    requires KeysIn(keys, items) && Distinct(keys)
    requires forall k :: k in keys ==> normalize(k) == k
    ensures Group(keys, items, normalize, n) == if n in keys then items[n] else []
    ensures Folded(keys, normalize, n) == []
  {
    if keys != [] {
      var init := keys[..|keys| - 1];
      assert keys == init + [keys[|keys| - 1]];
      GroupOfCanonical(init, items, normalize, n);
    }
  }

  lemma {:induction false} NormalizeAllOfFixed(keys: seq<string>, normalize: string -> string)
    requires forall k :: k in keys ==> normalize(k) == k
    ensures NormalizeAll(keys, normalize) == keys
  {
    var ns := NormalizeAll(keys, normalize);
    assert forall i :: 0 <= i < |keys| ==> ns[i] == keys[i];
  }

  lemma {:induction false} ReportOfEmptyGroups(keys: seq<string>, items: map<string, seq<string>>)
    requires KeysIn(keys, items)
    requires forall k :: k in keys ==> items[k] == []
    ensures Report(keys, items) == []
  {
    if keys != [] {
      ReportOfEmptyGroups(keys[..|keys| - 1], items);
    }
  }

  /** Merging a canonical store gives it back unchanged, and reports nothing. */
  lemma MergeOfCanonical(data: Store, normalize: string -> string)
    requires data.Valid() && Canonical(data, normalize)
    ensures MergedData(data.keys, data.items, normalize) == data
    ensures var mp := MergedPaths(data.keys, normalize);
      Report(mp.keys, mp.items) == []
  {
    MergedDataOfCanonical(data, normalize);
    ReportOfCanonical(data, normalize);
  }

  lemma MergedDataOfCanonical(data: Store, normalize: string -> string)
    requires data.Valid() && Canonical(data, normalize)
    ensures MergedData(data.keys, data.items, normalize) == data
  {
    CanonicalKeys(data, normalize);
    CanonicalGroups(data, normalize);
    DataAfterIsMerged(data, data.keys, data.items, normalize);
  }

  /** In a canonical store, each key's group is its own list, which has no repeats. */
  lemma CanonicalGroups(data: Store, normalize: string -> string)
    requires data.Valid() && Canonical(data, normalize)
    ensures forall n :: n in data.items ==> Dedup(Group(data.keys, data.items, normalize, n)) == data.items[n]
  {
    forall n | n in data.items ensures Dedup(Group(data.keys, data.items, normalize, n)) == data.items[n] {
      GroupOfCanonical(data.keys, data.items, normalize, n);
      DedupOfDistinct(data.items[n]);
    }
  }

  lemma ReportOfCanonical(data: Store, normalize: string -> string)
    requires data.Valid() && Canonical(data, normalize)
    ensures var mp := MergedPaths(data.keys, normalize);
      Report(mp.keys, mp.items) == []
  {
    var mp := MergedPaths(data.keys, normalize);
    forall n | n in mp.keys ensures mp.items[n] == [] {
      GroupOfCanonical(data.keys, data.items, normalize, n);
    }
    ReportOfEmptyGroups(mp.keys, mp.items);
  }

  /** The keys of a canonical store are their own normal forms, so the merge keeps them in order. */
  lemma CanonicalKeys(data: Store, normalize: string -> string)
    requires data.Valid() && Canonical(data, normalize)
    ensures Dedup(NormalizeAll(data.keys, normalize)) == data.keys
  {
    NormalizeAllOfFixed(data.keys, normalize);
    DedupOfDistinct(data.keys);
  }

  /** With an idempotent `normalize`, the merge always produces a canonical store. */
  lemma MergeIsCanonical(data: Store, normalize: string -> string)
    requires data.Valid() && Idempotent(normalize)
    ensures Canonical(MergedData(data.keys, data.items, normalize), normalize)
  {
    var out := MergedData(data.keys, data.items, normalize);
    forall n | n in out.keys ensures normalize(n) == n {
      NormalizeAllMembers(data.keys, normalize, n);
    }
  }

  /**
   * With an idempotent `normalize`, merging the merge's own output gives it
   * back unchanged and reports nothing, so a second run takes the "no
   * changes" branch.
   */
  lemma MergeIdempotent(data: Store, normalize: string -> string)
    requires data.Valid() && Idempotent(normalize)
    ensures var out := MergedData(data.keys, data.items, normalize);
      && MergedData(out.keys, out.items, normalize) == out
      && var mp := MergedPaths(out.keys, normalize);
         Report(mp.keys, mp.items) == []
  {
    MergeIsCanonical(data, normalize);
    MergeOfCanonical(MergedData(data.keys, data.items, normalize), normalize);
  }

  /**
   * With an idempotent `normalize`, the file is rewritten exactly when the
   * store is not canonical: some key is not in normal form, or some list
   * repeats a record.
   */
  lemma ChangedIffNotCanonical(data: Store, normalize: string -> string)
    requires data.Valid() && Idempotent(normalize)
    ensures MergedData(data.keys, data.items, normalize).items != data.items <==> !Canonical(data, normalize)
  {
    var out := MergedData(data.keys, data.items, normalize);
    if Canonical(data, normalize) {
      MergeOfCanonical(data, normalize);
    } else {
      var k :| k in data.keys && !(normalize(k) == k && Distinct(data.items[k]));
      NormalizeAllMembers(data.keys, normalize, k);
      if normalize(k) != k {
        assert k !in out.items;
      } else {
        assert k in out.items && Distinct(out.items[k]);
      }
    }
  }
}
