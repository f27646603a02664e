/**
 * The in-memory annotation store: the JSON document, a dictionary from the
 * video-path string to that video's records in insertion order.
 */
module AnnotationStore {
  import opened Dicts
  import opened Annotations

  type Store = Dict<AnnotationList>

  /** `annotation_data.get(video_path, [])`. */
  function Get(store: Store, videoPath: string): (anns: AnnotationList)
    ensures videoPath !in store.items ==> anns == []
    ensures videoPath in store.items ==> anns == store.items[videoPath]
  {
    if videoPath in store.items then store.items[videoPath] else []
  }
}
