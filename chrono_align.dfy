/** `chronoAlign(*time_value_pairs)`: the earliest of the given times,
    followed by all the given values in the order they were passed. */
module ChronoAlign {
  import opened Results
  import opened Timestamps

  datatype Pair = Pair(time: DateTime, value: real)

  /** An element of the returned tuple: the first is a datetime, the rest are values. */
  datatype Item = Time(time: DateTime) | Value(value: real)

  /** With no pairs the loop never binds `earliest`, and reading it at the
      end raises `UnboundLocalError`. */
  datatype Error = UnboundEarliest

  /** The earliest time, as the loop finds it: the first time, replaced by
      any later-listed time that is strictly before it. */
  function Earliest(pairs: seq<Pair>): (e: DateTime)
    requires |pairs| > 0
    ensures forall i :: 0 <= i < |pairs| ==> !Before(pairs[i].time, e)
    ensures exists i :: 0 <= i < |pairs| && pairs[i].time == e
  {
    if |pairs| == 1 then pairs[0].time
    else
      var prefix := pairs[..|pairs| - 1];
      assert forall i :: 0 <= i < |pairs| - 1 ==> pairs[i] == prefix[i];
      var earliest := Earliest(prefix);
      var time := pairs[|pairs| - 1].time;
      forall i | 0 <= i < |pairs| - 1 ensures Before(time, earliest) ==> !Before(pairs[i].time, time) {
        if Before(time, earliest) && Before(pairs[i].time, time) {
          BeforeTransitive(pairs[i].time, time, earliest);
        }
      }
      BeforeTrichotomy(time, earliest);
      if Before(time, earliest) then time else earliest
  }

  function ValuesOf(pairs: seq<Pair>): (vs: seq<Item>)
    ensures |vs| == |pairs|
  {
    seq(|pairs|, i requires 0 <= i < |pairs| => Value(pairs[i].value))
  }

  /** The loop of `chronoAlign` and the final `insert(0, earliest)`. */
  method ChronoAlign(pairs: seq<Pair>) returns (r: Result<seq<Item>, Error>)
    ensures r.Err? <==> pairs == []
    ensures r.Ok? ==> |r.value| == |pairs| + 1
    ensures r.Ok? ==> r.value[0] == Time(Earliest(pairs))
    ensures r.Ok? ==> forall i :: 0 <= i < |pairs| ==> r.value[i + 1] == Value(pairs[i].value)
  {
    var timeValues: seq<Item> := [];
    var first := 0;
    var earliest: Option<DateTime> := None;
    for k := 0 to |pairs|
      invariant first == if k == 0 then 0 else 1
      invariant earliest.Some? <==> k > 0
      invariant k > 0 ==> earliest.value == Earliest(pairs[..k])
      invariant timeValues == ValuesOf(pairs[..k])
    {
      var time := pairs[k].time;
      var value := pairs[k].value;
      if first == 0 {
        earliest := Some(time);
        first := first + 1;
      }
      timeValues := timeValues + [Value(value)];
      if Before(time, earliest.value) {
        earliest := Some(time);
      }
      assert pairs[..k + 1][..k] == pairs[..k];
    }
    assert pairs[..|pairs|] == pairs;
    if earliest.None? {
      return Err(UnboundEarliest);
    }
    timeValues := [Time(earliest.value)] + timeValues;
    return Ok(timeValues);
  }
}
