/**
 * The annotation record of backend/models.py: a start and an end time, with
 * its conversion to and from the two-key dictionary that the JSON store holds.
 */
module Annotations {
  import opened Wrappers

  /**
   * `Annotation(start_time, end_time)`. The constructor stores both times as
   * given: nothing requires the start to precede the end.
   */
  datatype Annotation = Annotation(startTime: real, endTime: real)

  const StartKey: string := "start_time"
  const EndKey: string := "end_time"

  /** The `KeyError` raised by a subscript on a missing key. */
  datatype KeyError = KeyError(key: string)

  /** `to_dict`: a dictionary with exactly the two time keys. */
  function ToDict(a: Annotation): (d: map<string, real>)
    ensures d.Keys == {StartKey, EndKey}
    ensures d[StartKey] == a.startTime && d[EndKey] == a.endTime
  {
    map[StartKey := a.startTime, EndKey := a.endTime]
  }

  /**
   * `from_dict`: reads `start_time` and then `end_time`; a missing key raises,
   * any further key is ignored, and no ordering of the two times is checked.
   */
  function FromDict(d: map<string, real>): (r: Result<Annotation, KeyError>)
    ensures r.Ok? <==> StartKey in d && EndKey in d
    ensures r.Ok? ==> r.value.startTime == d[StartKey] && r.value.endTime == d[EndKey]
    ensures r.Err? ==> r.error.key == if StartKey !in d then StartKey else EndKey
  {
    if StartKey !in d then Err(KeyError(StartKey))
    else if EndKey !in d then Err(KeyError(EndKey))
    else Ok(Annotation(d[StartKey], d[EndKey]))
  }

  /** Reading back a record's own dictionary gives the record again. */
  lemma FromDictToDict(a: Annotation)
    ensures FromDict(ToDict(a)) == Ok(a)
  {
  }

  /** A dictionary with exactly the two keys survives the trip through a record. */
  lemma ToDictFromDict(d: map<string, real>)
    requires d.Keys == {StartKey, EndKey}
    ensures FromDict(d).Ok? && ToDict(FromDict(d).value) == d
  {
    var e := ToDict(FromDict(d).value);
    assert e.Keys == d.Keys;
    assert forall k :: k in d ==> e[k] == d[k];
  }

  /**
   * Two records have equal dictionaries exactly when their times are equal,
   * so a structural duplicate test on the stored dictionaries is equality of
   * records.
   */
  lemma ToDictInjective(a: Annotation, b: Annotation)
    ensures ToDict(a) == ToDict(b) <==> a == b
  {
    if ToDict(a) == ToDict(b) {
      assert ToDict(a)[StartKey] == ToDict(b)[StartKey];
      assert ToDict(a)[EndKey] == ToDict(b)[EndKey];
    }
  }

  /** The records of one video, in insertion order. */
  type AnnotationList = seq<Annotation>
}
