/**
 * The store updates of `add_annotation` and `delete_annotation` in
 * backend/app.py, after the form fields have been read and parsed. The store
 * is keyed by the raw `video_path` string, exactly as submitted.
 */
module AnnotationOps {
  import opened Wrappers
  import opened Dicts
  import opened Annotations
  import opened AnnotationStore

  /** Why an update was refused; each becomes an error flash and no save. */
  datatype OpError =
    | InvalidRange   // "End time must be greater than start time"
    | NotFound       // "Annotation not found"

  /**
   * Append `{start_time, end_time}` to the list of `videoPath`, creating the
   * list when the path is new. A range whose start is not below its end is
   * refused before the store is even looked at.
   */
  function AddAnnotation(store: Store, videoPath: string, startTime: real, endTime: real): (r: Result<Store, OpError>)
    requires store.Valid()
    ensures r.Err? <==> startTime >= endTime
    ensures r.Err? ==> r.error == InvalidRange
    ensures r.Ok? ==> r.value.Valid()
    ensures r.Ok? ==> r.value.items.Keys == store.items.Keys + {videoPath}
    ensures r.Ok? ==> r.value.keys == if videoPath in store.items then store.keys else store.keys + [videoPath]
    ensures r.Ok? ==> |r.value.items[videoPath]| == |Get(store, videoPath)| + 1
    ensures r.Ok? ==> r.value.items[videoPath][..|Get(store, videoPath)|] == Get(store, videoPath)
    ensures r.Ok? ==> Last(r.value.items[videoPath]) == Annotation(startTime, endTime)
    ensures r.Ok? ==> forall k :: k in store.items && k != videoPath ==> r.value.items[k] == store.items[k]
  {
    if startTime >= endTime then Err(InvalidRange)
    else
      var withList := if videoPath !in store.items then store.Put(videoPath, []) else store;
      Ok(withList.Put(videoPath, withList.items[videoPath] + [Annotation(startTime, endTime)]))
  }

  function Last<T>(s: seq<T>): T
    requires s != []
  {
    s[|s| - 1]
  }

  /**
   * Remove the record at position `index` of the list of `videoPath`; a path
   * that is not stored, or an index outside `[0, len)`, is refused.
   */
  function DeleteAnnotation(store: Store, videoPath: string, index: int): (r: Result<Store, OpError>)
    requires store.Valid()
    ensures r.Err? <==> !(videoPath in store.items && 0 <= index < |store.items[videoPath]|)
    ensures r.Err? ==> r.error == NotFound
    ensures r.Ok? ==> r.value.Valid() && r.value.keys == store.keys && r.value.items.Keys == store.items.Keys
    ensures r.Ok? ==> |r.value.items[videoPath]| == |store.items[videoPath]| - 1
    ensures r.Ok? ==> forall i :: 0 <= i < index ==> r.value.items[videoPath][i] == store.items[videoPath][i]
    ensures r.Ok? ==> forall i :: index <= i < |r.value.items[videoPath]| ==>
      r.value.items[videoPath][i] == store.items[videoPath][i + 1]
    ensures r.Ok? ==>
      multiset(r.value.items[videoPath]) + multiset{store.items[videoPath][index]} == multiset(store.items[videoPath])
    ensures r.Ok? ==> forall k :: k in store.items && k != videoPath ==> r.value.items[k] == store.items[k]
  {
    if videoPath in store.items && 0 <= index < |store.items[videoPath]| then
      var anns := store.items[videoPath];
      assert anns == anns[..index] + [anns[index]] + anns[index + 1..];
      Ok(store.Put(videoPath, anns[..index] + anns[index + 1..]))
    else
      Err(NotFound)
  }

  /**
   * Adding a record and then deleting the last position of that path gives
   * back the path's original list. The map as a whole comes back only when
   * the path was already stored: a new path stays behind as an empty list.
   */
  lemma AddThenDeleteLast(store: Store, videoPath: string, startTime: real, endTime: real)
    requires store.Valid() && startTime < endTime
    ensures AddAnnotation(store, videoPath, startTime, endTime).Ok?
    ensures
      var added := AddAnnotation(store, videoPath, startTime, endTime).value;
      var deleted := DeleteAnnotation(added, videoPath, |Get(store, videoPath)|);
      && deleted.Ok?
      && deleted.value.items[videoPath] == Get(store, videoPath)
      && (videoPath in store.items ==> deleted.value == store)
      && (videoPath !in store.items ==>
            deleted.value.items == store.items[videoPath := []] && deleted.value.keys == store.keys + [videoPath])
  {
    var added := AddAnnotation(store, videoPath, startTime, endTime).value;
    var n := |Get(store, videoPath)|;
    var deleted := DeleteAnnotation(added, videoPath, n).value;
    assert deleted.items[videoPath] == added.items[videoPath][..n];
    assert deleted.items == store.items[videoPath := Get(store, videoPath)];
  }
}
