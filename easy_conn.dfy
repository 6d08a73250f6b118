/** The driver script `easy_conn.py`: a `key=value` configuration read into
    a dictionary, the channel names looked up in it, and the choice of
    series handed to `ChannelHelper.align`. */
module EasyConn {
  import opened Results
  import opened Text
  import opened ConfigLines
  import ChannelHelper
  import Numeric

  // ---------------------------------------------------------------------
  // The configuration dictionary `confs`.
  // ---------------------------------------------------------------------

  /** The dictionary the reading loop builds from `lines`, or the first
      unpacking error. Neither key nor value is stripped; a later line with
      the same key overwrites an earlier one. */
  function ConfigMap(lines: seq<string>): (r: Result<map<string, string>, UnpackError>)
    ensures r.Err? <==> HasMalformed(lines)
  {
    if lines == [] then Ok(map[])
    else
      MalformedStep(lines);
      match ConfigMap(lines[..|lines| - 1])
      case Err(e) => Err(e)
      case Ok(confs) =>
        match Classify(lines[|lines| - 1])
        case Skipped => Ok(confs)
        case Malformed(e) => Err(e)
        case Entry(key, value) => Ok(confs[key := value])
  }

  /** Line `i` sets `key`. */
  predicate SetsKey(lines: seq<string>, i: int, key: string)
    requires 0 <= i < |lines|
  {
    Classify(lines[i]).Entry? && Classify(lines[i]).key == key
  }

  lemma ErrorCarriesOver(lines: seq<string>)
    requires lines != [] && ConfigMap(lines[..|lines| - 1]).Err?
    ensures ConfigMap(lines) == ConfigMap(lines[..|lines| - 1])
  {
  }

  /** A failure in a prefix of the file is the failure of the whole file. */
  lemma {:induction false} MapFailurePersists(lines: seq<string>, n: nat)
    requires n <= |lines| && ConfigMap(lines[..n]).Err?
    ensures ConfigMap(lines) == ConfigMap(lines[..n])
    decreases |lines|
  {
    if n < |lines| {
      var prefix := lines[..|lines| - 1];
      assert prefix[..n] == lines[..n];
      MapFailurePersists(prefix, n);
      ErrorCarriesOver(lines);
    } else {
      assert lines[..n] == lines;
    }
  }

  lemma MapKeysStep(lines: seq<string>, key: string)
    requires lines != [] && ConfigMap(lines).Ok?
    ensures ConfigMap(lines[..|lines| - 1]).Ok?
    ensures key in ConfigMap(lines).value <==>
      key in ConfigMap(lines[..|lines| - 1]).value || SetsKey(lines, |lines| - 1, key)
  {
  }

  /** Some line sets `key`. */
  predicate SetsSomewhere(lines: seq<string>, key: string) {
    exists i :: 0 <= i < |lines| && SetsKey(lines, i, key)
  }

  lemma SetsStep(lines: seq<string>, key: string)
    requires lines != []
    ensures SetsSomewhere(lines, key) <==>
      SetsSomewhere(lines[..|lines| - 1], key) || SetsKey(lines, |lines| - 1, key)
  {
    var prefix := lines[..|lines| - 1];
    if SetsSomewhere(lines, key) {
      var i :| 0 <= i < |lines| && SetsKey(lines, i, key);
      if i < |lines| - 1 {
        assert prefix[i] == lines[i];
        assert SetsKey(prefix, i, key);
      }
    }
    if SetsSomewhere(prefix, key) {
      var i :| 0 <= i < |prefix| && SetsKey(prefix, i, key);
      assert lines[i] == prefix[i];
      assert SetsKey(lines, i, key);
    }
  }

  /** The keys of the dictionary are exactly the keys some line sets. */
  lemma {:induction false} ConfigMapKeys(lines: seq<string>, key: string)
    requires ConfigMap(lines).Ok?
    ensures key in ConfigMap(lines).value <==> SetsSomewhere(lines, key)
  {
    if lines != [] {
      MapKeysStep(lines, key);
      ConfigMapKeys(lines[..|lines| - 1], key);
      SetsStep(lines, key);
    }
  }

  /** The value of a key is the one on the last line that sets it, as
      written after the `=` (not stripped). */
  lemma {:induction false} LastAssignmentWins(lines: seq<string>, i: nat, key: string)
    requires i < |lines|
    requires forall j :: i < j < |lines| ==> !SetsKey(lines, j, key)
    ensures ConfigMap(lines).Ok? && SetsKey(lines, i, key) ==>
      key in ConfigMap(lines).value && ConfigMap(lines).value[key] == Classify(lines[i]).value
  {
    if ConfigMap(lines).Ok? && SetsKey(lines, i, key) && i < |lines| - 1 {
      var prefix := lines[..|lines| - 1];
      assert prefix[i] == lines[i];
      forall j | i < j < |prefix| ensures !SetsKey(prefix, j, key) {
        assert prefix[j] == lines[j];
        assert !SetsKey(lines, j, key);
      }
      assert !SetsKey(lines, |lines| - 1, key);
      LastAssignmentWins(prefix, i, key);
    }
  }

  /** Lines 23-30: one pass over the file's lines, storing `confs[key] = value`. */
  method ReadConfig(lines: seq<string>) returns (r: Result<map<string, string>, UnpackError>)
    ensures r == ConfigMap(lines)
  {
    var confs: map<string, string> := map[];
    for i := 0 to |lines|
      invariant ConfigMap(lines[..i]) == Ok(confs)
    {
      assert lines[..i + 1][..i] == lines[..i];
      match Classify(lines[i])
      case Skipped =>
      case Malformed(e) =>
        MapFailurePersists(lines, i + 1);
        return Err(e);
      case Entry(key, value) =>
        confs := confs[key := value];
    }
    assert lines[..|lines|] == lines;
    return Ok(confs);
  }

  // ---------------------------------------------------------------------
  // Channel names (the `Keys` class and lines 32-45).
  // ---------------------------------------------------------------------

  const BeamPowerKey := "beam_power_channel_name"
  const FlowRateKey := "flow_rate_channel_name"
  const TempInKey := "temp_in_channel_name"
  const TempOutKey := "temp_out_channel_name"
  const PressureOutKey := "pressure_out_channel_name"
  /** `Keys.pressure_in` as the script writes it: the output pressure's key. */
  const PressureInKeyAsWritten := "pressure_out_channel_name"
  /** The key `Keys.pressure_in` evidently stands for. */
  const PressureInKey := "pressure_in_channel_name"

  /** Lines 32-34: the beam-power channel is used only when its key is
      present with a value that is not all whitespace; the value itself is
      kept unstripped. */
  function BeamPowerChannel(confs: map<string, string>): (r: Option<string>)
    ensures r.Some? <==> BeamPowerKey in confs && !AllSpace(confs[BeamPowerKey])
    ensures r.Some? ==> r.value == confs[BeamPowerKey]
  {
    if BeamPowerKey in confs && Strip(confs[BeamPowerKey]) != [] then Some(confs[BeamPowerKey]) else None
  }

  datatype Channels = Channels(
    beamPower: Option<string>,
    flowRate: string,
    tempIn: string,
    tempOut: string,
    pressureIn: string,
    pressureOut: string)

  /** `confs[key]` on a missing key raises `KeyError(key)`. */
  datatype LookupError = KeyError(key: string)

  /** Lines 32-45 with the input pressure read from `pressureInKey`: the
      lookups in script order, the first missing key failing. */
  function LookupChannels(confs: map<string, string>, pressureInKey: string): (r: Result<Channels, LookupError>)
    ensures r.Ok? <==> FlowRateKey in confs && TempInKey in confs && TempOutKey in confs
                       && pressureInKey in confs && PressureOutKey in confs
    ensures r.Ok? ==> r.value == Channels(BeamPowerChannel(confs), confs[FlowRateKey], confs[TempInKey],
                                          confs[TempOutKey], confs[pressureInKey], confs[PressureOutKey])
    ensures r.Err? ==> r.error.key !in confs
  {
    var beamPower := BeamPowerChannel(confs);
    if FlowRateKey !in confs then Err(KeyError(FlowRateKey))
    else if TempInKey !in confs then Err(KeyError(TempInKey))
    else if TempOutKey !in confs then Err(KeyError(TempOutKey))
    else if pressureInKey !in confs then Err(KeyError(pressureInKey))
    else if PressureOutKey !in confs then Err(KeyError(PressureOutKey))
    else Ok(Channels(beamPower, confs[FlowRateKey], confs[TempInKey], confs[TempOutKey],
                     confs[pressureInKey], confs[PressureOutKey]))
  }

  /** As written: both pressure channels come from `pressure_out_channel_name`,
      so they are always the same channel. */
  lemma PressureChannelsCoincideAsWritten(confs: map<string, string>)
    requires LookupChannels(confs, PressureInKeyAsWritten).Ok?
    ensures LookupChannels(confs, PressureInKeyAsWritten).value.pressureIn
         == LookupChannels(confs, PressureInKeyAsWritten).value.pressureOut
  {
  }

  /** As written, whatever `pressure_in_channel_name` is set to (or
      whether it is set at all) changes nothing in the lookups. */
  lemma PressureInIgnoredAsWritten(confs: map<string, string>, v: string)
    ensures LookupChannels(confs[PressureInKey := v], PressureInKeyAsWritten)
         == LookupChannels(confs, PressureInKeyAsWritten)
    ensures LookupChannels(confs - {PressureInKey}, PressureInKeyAsWritten)
         == LookupChannels(confs, PressureInKeyAsWritten)
  {
  }

  /** The script's lookups with the input pressure read from its own key. */
  function ReadChannels(confs: map<string, string>): (r: Result<Channels, LookupError>)
    ensures r.Ok? <==> FlowRateKey in confs && TempInKey in confs && TempOutKey in confs
                       && PressureInKey in confs && PressureOutKey in confs
    ensures r.Ok? ==> r.value.pressureIn == confs[PressureInKey] && r.value.pressureOut == confs[PressureOutKey]
  {
    LookupChannels(confs, PressureInKey)
  }

  /** With the intended key, distinct configured pressure channels stay distinct. */
  lemma PressureInFollowsConfig(confs: map<string, string>)
    requires ReadChannels(confs).Ok?
    ensures confs[PressureInKey] != confs[PressureOutKey] ==>
              ReadChannels(confs).value.pressureIn != ReadChannels(confs).value.pressureOut
  {
  }

  /** The channels `easy_conn.py` fetches, in the order it fetches them. */
  function ChannelsToFetch(c: Channels): (names: seq<string>)
    ensures |names| == if c.beamPower.Some? then 6 else 5
    ensures c.beamPower.Some? ==> names[0] == c.beamPower.value
    ensures names[|names| - 5..] == [c.flowRate, c.tempIn, c.tempOut, c.pressureIn, c.pressureOut]
  {
    (if c.beamPower.Some? then [c.beamPower.value] else [])
      + [c.flowRate, c.tempIn, c.tempOut, c.pressureIn, c.pressureOut]
  }

  // ---------------------------------------------------------------------
  // Lines 62-65: the series handed to `align`.
  // ---------------------------------------------------------------------

  /** The arguments of the `align` call: the five fixed series, preceded by
      the beam power when there is one. */
  function AlignArguments(beamPower: Option<ChannelHelper.Series>, massFlow: ChannelHelper.Series,
                          tempIn: ChannelHelper.Series, tempOut: ChannelHelper.Series,
                          pressureIn: ChannelHelper.Series, pressureOut: ChannelHelper.Series)
    : seq<ChannelHelper.Series>
  {
    (if beamPower.Some? then [beamPower.value] else []) + [massFlow, tempIn, tempOut, pressureIn, pressureOut]
  }

  /** Lines 62-65: align five series, or six with the beam power first; the
      arrays come back in that order, each resampled onto the shared axis.
      A channel with no samples in the last hour makes `align` fail. */
  method AlignChannels(beamPower: Option<ChannelHelper.Series>, massFlow: ChannelHelper.Series,
                       tempIn: ChannelHelper.Series, tempOut: ChannelHelper.Series,
                       pressureIn: ChannelHelper.Series, pressureOut: ChannelHelper.Series)
    returns (r: Result<ChannelHelper.Aligned, ChannelHelper.AlignError>)
    ensures r.Err? <==> (beamPower.Some? && |beamPower.value| == 0) || |massFlow| == 0 || |tempIn| == 0
                        || |tempOut| == 0 || |pressureIn| == 0 || |pressureOut| == 0
    ensures r.Err? ==> ChannelHelper.FirstEmpty(
                         AlignArguments(beamPower, massFlow, tempIn, tempOut, pressureIn, pressureOut), r.error.index)
    ensures r.Ok? ==>
              var args := AlignArguments(beamPower, massFlow, tempIn, tempOut, pressureIn, pressureOut);
              r.value.axis == Numeric.Linspace(ChannelHelper.LatestStart(args), ChannelHelper.EarliestStop(args),
                                               ChannelHelper.MaxLen(args))
    ensures r.Ok? ==> |r.value.arrays| == if beamPower.Some? then 6 else 5
    ensures r.Ok? && beamPower.Some? ==> r.value.arrays[0] == ChannelHelper.Resample(beamPower.value, r.value.axis)
    ensures r.Ok? ==>
              var o, axis := |r.value.arrays| - 5, r.value.axis;
              && r.value.arrays[o] == ChannelHelper.Resample(massFlow, axis)
              && r.value.arrays[o + 1] == ChannelHelper.Resample(tempIn, axis)
              && r.value.arrays[o + 2] == ChannelHelper.Resample(tempOut, axis)
              && r.value.arrays[o + 3] == ChannelHelper.Resample(pressureIn, axis)
              && r.value.arrays[o + 4] == ChannelHelper.Resample(pressureOut, axis)
  {
    var args := AlignArguments(beamPower, massFlow, tempIn, tempOut, pressureIn, pressureOut);
    var o := |args| - 5;
    assert args[o] == massFlow && args[o + 1] == tempIn && args[o + 2] == tempOut;
    assert args[o + 3] == pressureIn && args[o + 4] == pressureOut;
    assert beamPower.Some? ==> args[0] == beamPower.value;
    r := ChannelHelper.Align(args);
  }
}
