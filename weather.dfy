/**
 * getWeatherConditions: the weather's `int[]` conditions are copied slot by slot
 * into an `Integer[]`, which is then added to a new `List<Integer>`.
 */
module Weather {
  import opened Wrappers

  /** The one exception the copying stage can raise: `ArrayIndexOutOfBoundsException`, a store outside the destination array. */
  datatype StoreError = ArrayIndexOutOfBounds(index: int, length: int)

  /**
   * The copying loop of the first stage, into a fresh destination array of
   * `capacity` slots: each store is bounds-checked as on the JVM, so the copy
   * succeeds exactly when every condition fits.
   */
  method CopyInto(conditions: seq<int>, capacity: nat) returns (res: Result<seq<int>, StoreError>)
    ensures res.Success? <==> |conditions| <= capacity
    ensures res.Success? ==> |res.value| == capacity && res.value[..|conditions|] == conditions
    ensures res.Failure? ==> res.error == ArrayIndexOutOfBounds(capacity, capacity)
  {
    var boxed := new int[capacity];
    var i := 0;
    while i < |conditions|
      invariant 0 <= i <= |conditions|
      invariant i <= boxed.Length == capacity
      invariant boxed[..i] == conditions[..i]
    {
      if i >= boxed.Length {
        return Failure(ArrayIndexOutOfBounds(i, boxed.Length));
      }
      boxed[i] := conditions[i];
      i := i + 1;
    }
    assert boxed[..][..i] == boxed[..i];
    return Success(boxed[..]);
  }

  /** The first stage as written: the destination is `new Integer[]{}`, of length zero. */
  method CopyConditionsAsWritten(conditions: seq<int>) returns (res: Result<seq<int>, StoreError>)
    ensures res.Success? <==> conditions == []
    ensures res.Success? ==> res.value == []
    ensures res.Failure? ==> res.error == ArrayIndexOutOfBounds(0, 0)
  {
    res := CopyInto(conditions, 0);
  }

  /** A single condition is already enough to make the stage as written fail. */
  method OneConditionFailsAsWritten() returns (res: Result<seq<int>, StoreError>)
    ensures res == Failure(ArrayIndexOutOfBounds(0, 0))
  {
    res := CopyConditionsAsWritten([1]);
  }

  /**
   * The first stage as evidently intended: the destination has the length of the
   * conditions array, so no store is out of bounds and every condition is copied.
   */
  method CopyConditions(conditions: seq<int>) returns (res: Result<seq<int>, StoreError>)
    ensures res == Success(conditions)
  {
    res := CopyInto(conditions, |conditions|);
    assert res.value == res.value[..|conditions|];
  }

  /** `List.addAll`: the new elements are appended after the existing ones, in order. */
  function AddAll(list: seq<int>, items: seq<int>): (r: seq<int>)
    ensures |r| == |list| + |items|
    ensures r[..|list|] == list && r[|list|..] == items
  {
    list + items
  }

  /** The second stage: a new, empty list to which all boxed conditions are added. */
  function ToList(boxed: seq<int>): (list: seq<int>)
    ensures |list| == |boxed|
    ensures forall k :: 0 <= k < |list| ==> list[k] == boxed[k]
  {
    AddAll([], boxed)
  }

  /** Both stages, with the intended first stage: the emitted list is the conditions array, same length and order. */
  method WeatherConditions(conditions: seq<int>) returns (res: Result<seq<int>, StoreError>)
    ensures res.Success? && |res.value| == |conditions|
    ensures res.Success? ==> forall k :: 0 <= k < |conditions| ==> res.value[k] == conditions[k]
  {
    var boxed := CopyConditions(conditions);
    res := Success(ToList(boxed.value));
  }

  /** Both stages as written: the list is emitted only for an empty conditions array. */
  method WeatherConditionsAsWritten(conditions: seq<int>) returns (res: Result<seq<int>, StoreError>)
    ensures res.Success? <==> conditions == []
    ensures res.Success? ==> res.value == []
    ensures res.Failure? ==> res.error == ArrayIndexOutOfBounds(0, 0)
  {
    var boxed := CopyConditionsAsWritten(conditions);
    match boxed
    case Failure(e) => res := Failure(e);
    case Success(b) => res := Success(ToList(b));
  }
}
