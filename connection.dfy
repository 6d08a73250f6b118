/** The driver script `src/Connection.py`: the channel and table lists read
    from its configuration files, the start/end date check, the `-sample`
    option, and the `data` dictionary built from the aligned arrays. */
module Connection {
  import opened Results
  import opened Text
  import opened ConfigLines
  import opened Timestamps

  // ---------------------------------------------------------------------
  // Configuration files: each kept line contributes the stripped text
  // after its `=`, when that is not empty; the key is discarded.
  // ---------------------------------------------------------------------

  /** What one line adds to `channels` (or `table_files`). */
  function LineValues(raw: string): (r: Result<seq<string>, UnpackError>)
    ensures r.Err? <==> Classify(raw).Malformed?
    ensures Classify(raw).Skipped? ==> r == Ok([])
    ensures r.Ok? ==> |r.value| <= 1 && forall v :: v in r.value ==> v != [] && Strip(v) == v
    ensures Classify(raw).Entry? ==>
              r.Ok? && (r.value != [] <==> Strip(Classify(raw).value) != [])
              && forall v :: v in r.value ==> v == Strip(Classify(raw).value)
  {
    match Classify(raw)
    case Skipped => Ok([])
    case Malformed(e) => Err(e)
    case Entry(_, value) =>
      var v := Strip(value);
      StripIdempotent(value);
      if v != [] then Ok([v]) else Ok([])
  }

  /** The first error of the two, else both lists one after the other. */
  function Chain(a: Result<seq<string>, UnpackError>, b: Result<seq<string>, UnpackError>): Result<seq<string>, UnpackError> {
    if a.Err? then a else if b.Err? then b else Ok(a.value + b.value)
  }

  /** The list the reading loop builds from `lines`, or the first unpacking error. */
  function ConfigValues(lines: seq<string>): (r: Result<seq<string>, UnpackError>)
    ensures r.Err? <==> HasMalformed(lines)
    ensures r.Ok? ==> |r.value| <= |lines|
  {
    if lines == [] then Ok([])
    else
      MalformedStep(lines);
      Chain(ConfigValues(lines[..|lines| - 1]), LineValues(lines[|lines| - 1]))
  }

  lemma ChainAssociative(a: Result<seq<string>, UnpackError>, b: Result<seq<string>, UnpackError>, c: Result<seq<string>, UnpackError>)
    ensures Chain(Chain(a, b), c) == Chain(a, Chain(b, c))
  {
    if a.Ok? && b.Ok? && c.Ok? {
      assert (a.value + b.value) + c.value == a.value + (b.value + c.value);
    }
  }

  /** Reading two files' worth of lines one after the other is reading each
      and concatenating: the values keep file order. */
  lemma {:induction false} ConfigValuesAppend(a: seq<string>, b: seq<string>)
    ensures ConfigValues(a + b) == Chain(ConfigValues(a), ConfigValues(b))
    decreases |b|
  {
    if b == [] {
      assert a + b == a;
      if ConfigValues(a).Ok? {
        assert ConfigValues(a).value + [] == ConfigValues(a).value;
      }
    } else {
      var b' := b[..|b| - 1];
      assert (a + b)[..|a + b| - 1] == a + b';
      assert (a + b)[|a + b| - 1] == b[|b| - 1];
      ConfigValuesAppend(a, b');
      ChainAssociative(ConfigValues(a), ConfigValues(b'), LineValues(b[|b| - 1]));
    }
  }

  /** A blank or `#` line contributes nothing, wherever it is. */
  lemma SkippedLineIgnored(pre: seq<string>, line: string, post: seq<string>)
    requires Classify(line).Skipped?
    ensures ConfigValues(pre + [line] + post) == ConfigValues(pre + post)
  {
    ConfigValuesAppend(pre + [line], post);
    ConfigValuesAppend(pre, [line]);
    ConfigValuesAppend(pre, post);
    assert [line][..0] == [];
    if ConfigValues(pre).Ok? {
      assert ConfigValues(pre).value + [] == ConfigValues(pre).value;
    }
  }

  /** `line` is an entry whose stripped value is `v`. */
  predicate Yields(line: string, v: string) {
    Classify(line).Entry? && Strip(Classify(line).value) == v
  }

  /** Some line has property `p`. */
  predicate SomeLine(lines: seq<string>, p: string -> bool) {
    exists i :: 0 <= i < |lines| && p(lines[i])
  }

  /** Some line is an entry whose stripped value is `v`. */
  predicate YieldsSomewhere(lines: seq<string>, v: string) {
    SomeLine(lines, line => Yields(line, v))
  }

  /** The last line aside, a line with property `p` is in the prefix. */
  lemma SomeLineStep(lines: seq<string>, p: string -> bool)
    requires lines != []
    ensures SomeLine(lines, p) <==> SomeLine(lines[..|lines| - 1], p) || p(lines[|lines| - 1])
  {
    var prefix := lines[..|lines| - 1];
    if SomeLine(lines, p) {
      var i :| 0 <= i < |lines| && p(lines[i]);
      if i < |lines| - 1 {
        assert prefix[i] == lines[i];
      }
    }
    if SomeLine(prefix, p) {
      var i :| 0 <= i < |prefix| && p(prefix[i]);
      assert lines[i] == prefix[i];
    }
  }

  lemma ValuesStep(lines: seq<string>, v: string)
    requires lines != [] && ConfigValues(lines).Ok?
    ensures ConfigValues(lines[..|lines| - 1]).Ok?
    ensures v in ConfigValues(lines).value <==>
      v in ConfigValues(lines[..|lines| - 1]).value || (v != [] && Yields(lines[|lines| - 1], v))
  {
    var last := LineValues(lines[|lines| - 1]);
    assert ConfigValues(lines).value == ConfigValues(lines[..|lines| - 1]).value + last.value;
  }

  /** The values read are exactly the non-empty stripped right-hand sides
      of the entry lines. */
  lemma {:induction false} ConfigValuesMembers(lines: seq<string>, v: string)
    requires ConfigValues(lines).Ok?
    ensures v in ConfigValues(lines).value <==> v != [] && YieldsSomewhere(lines, v)
  {
    if lines != [] {
      ValuesStep(lines, v);
      ConfigValuesMembers(lines[..|lines| - 1], v);
      SomeLineStep(lines, line => Yields(line, v));
    }
  }

  /** The lines `key=value` for each pair, in order. */
  function Assignments(keys: seq<string>, values: seq<string>): (lines: seq<string>)
    requires |keys| == |values|
    ensures |lines| == |keys|
    ensures forall i :: 0 <= i < |keys| ==> lines[i] == keys[i] + "=" + values[i]
  {
    if keys == [] then []
    else
      var n := |keys| - 1;
      Assignments(keys[..n], values[..n]) + [keys[n] + "=" + values[n]]
  }

  /** A key that reads back as written: no `=`, and not starting with
      whitespace or `#`. */
  predicate PlainKey(key: string) {
    '=' !in key && (key != [] ==> !IsSpace(key[0]) && key[0] != '#')
  }

  /** A value that reads back as written: non-empty, no `=`, no outer whitespace. */
  predicate PlainValue(value: string) {
    value != [] && '=' !in value && !IsSpace(value[0]) && !IsSpace(value[|value| - 1])
  }

  /** Writing each value after its key and reading the lines back gives
      the values, in order. */
  lemma {:induction false} ConfigValuesRoundTrip(keys: seq<string>, values: seq<string>)
    requires |keys| == |values|
    requires forall i :: 0 <= i < |keys| ==> PlainKey(keys[i]) && PlainValue(values[i])
    ensures ConfigValues(Assignments(keys, values)) == Ok(values)
  {
    var n := |keys|;
    if n > 0 {
      var prefix := Assignments(keys[..n - 1], values[..n - 1]);
      ConfigValuesRoundTrip(keys[..n - 1], values[..n - 1]);
      AssignmentReadsBack(keys[n - 1], values[n - 1]);
      var line := keys[n - 1] + "=" + values[n - 1];
      assert Assignments(keys, values) == prefix + [line];
      ReadOneMore(prefix, line, values[..n - 1], values[n - 1]);
      assert values[..n - 1] + [values[n - 1]] == values;
    }
  }

  lemma ReadOneMore(prefix: seq<string>, line: string, values: seq<string>, last: string)
    requires ConfigValues(prefix) == Ok(values)
    requires LineValues(line) == Ok([last])
    ensures ConfigValues(prefix + [line]) == Ok(values + [last])
  {
    assert (prefix + [line])[..|prefix|] == prefix;
  }

  /** One `key=value` line contributes exactly its value. */
  lemma AssignmentReadsBack(key: string, value: string)
    requires PlainKey(key) && PlainValue(value)
    ensures LineValues(key + "=" + value) == Ok([value])
  {
    EntryRoundTrip(key, value);
    StripTrimmed(value);
  }

  /** Every value read is non-empty, already stripped, and free of `=`. */
  lemma {:induction false} ConfigValuesClean(lines: seq<string>)
    requires ConfigValues(lines).Ok?
    ensures forall v :: v in ConfigValues(lines).value ==> v != [] && Strip(v) == v && '=' !in v
  {
    if lines != [] {
      var prefix := lines[..|lines| - 1];
      ConfigValuesClean(prefix);
      var line := lines[|lines| - 1];
      if Classify(line).Entry? {
        var value := Classify(line).value;
        StripIdempotent(value);
        if '=' in Strip(value) {
          StripKeeps(value, '=');
        }
      }
    }
  }

  /** A failure in a prefix of the file is the failure of the whole file. */
  lemma FailurePersists(lines: seq<string>, n: nat)
    requires n <= |lines| && ConfigValues(lines[..n]).Err?
    ensures ConfigValues(lines) == ConfigValues(lines[..n])
  {
    ConfigValuesAppend(lines[..n], lines[n..]);
    assert lines[..n] + lines[n..] == lines;
  }

  /** The loops at lines 61-81: one pass over the file's lines, appending
      each kept line's stripped value. */
  method ReadValues(lines: seq<string>) returns (r: Result<seq<string>, UnpackError>)
    ensures r == ConfigValues(lines)
  {
    var values: seq<string> := [];
    for i := 0 to |lines|
      invariant ConfigValues(lines[..i]) == Ok(values)
    {
      assert lines[..i + 1][..i] == lines[..i];
      assert ConfigValues(lines[..i + 1]) == Chain(ConfigValues(lines[..i]), LineValues(lines[i]));
      match Classify(lines[i])
      case Skipped =>
        assert LineValues(lines[i]) == Ok([]);
        assert values + [] == values;
      case Malformed(e) =>
        FailurePersists(lines, i + 1);
        return Err(e);
      case Entry(_, value) =>
        var v := Strip(value);
        assert LineValues(lines[i]) == if v != [] then Ok([v]) else Ok([]);
        if v != [] {
          values := values + [v];
        } else {
          assert values + [] == values;
        }
    }
    assert lines[..|lines|] == lines;
    return Ok(values);
  }

  // ---------------------------------------------------------------------
  // Command-line checks.
  // ---------------------------------------------------------------------

  /** `if start_date >= end_date:` prints the usage and exits; the run goes
      on only when the start is strictly before the end. */
  function DatesAccepted(start: DateTime, end: DateTime): (ok: bool)
    ensures ok <==> Before(start, end)
  {
    BeforeTrichotomy(start, end);
    !(Before(end, start) || start == end)
  }

  datatype SampleMode = Avg | Up | Down

  function ModeName(m: SampleMode): string {
    match m
    case Avg => "avg"
    case Up => "up"
    case Down => "down"
  }

  datatype SampleError =
    | MissingSampleValue       // `sys.argv[index + 1]` past the end: IndexError
    | UnknownSample(given: string)  // not avg, up or down: message and exit

  /** `sys.argv.index(x)`: the first position of `x`. */
  function IndexOf(xs: seq<string>, x: string): (k: nat)
    requires x in xs
    ensures k < |xs| && xs[k] == x && x !in xs[..k]
  {
    if xs[0] == x then 0
    else
      var k := IndexOf(xs[1..], x);
      assert xs[..k + 1] == [xs[0]] + xs[1..][..k];
      k + 1
  }

  /** Lines 92-98: `avg` unless `-sample` is given, in which case the word
      after its first occurrence must be `avg`, `up` or `down`. */
  function SelectSample(argv: seq<string>): (r: Result<SampleMode, SampleError>)
    ensures "-sample" !in argv ==> r == Ok(Avg)
    ensures r.Ok? && "-sample" in argv ==>
      IndexOf(argv, "-sample") + 1 < |argv| && argv[IndexOf(argv, "-sample") + 1] == ModeName(r.value)
    ensures r.Err? ==> "-sample" in argv
    ensures r == Err(MissingSampleValue) <==> "-sample" in argv && IndexOf(argv, "-sample") == |argv| - 1
  {
    if "-sample" !in argv then Ok(Avg)
    else
      var index := IndexOf(argv, "-sample");
      if index + 1 >= |argv| then Err(MissingSampleValue)
      else
        var sample := argv[index + 1];
        if sample == "avg" then Ok(Avg)
        else if sample == "up" then Ok(Up)
        else if sample == "down" then Ok(Down)
        else Err(UnknownSample(sample))
  }

  /** Naming a mode after the first `-sample` selects exactly that mode,
      whatever follows. */
  lemma SampleOptionRoundTrip(pre: seq<string>, m: SampleMode, post: seq<string>)
    requires "-sample" !in pre
    ensures SelectSample(pre + ["-sample", ModeName(m)] + post) == Ok(m)
  {
    var argv := pre + ["-sample", ModeName(m)] + post;
    assert argv[|pre|] == "-sample";
    assert argv[..|pre|] == pre;
    assert IndexOf(argv, "-sample") == |pre|;
  }

  // ---------------------------------------------------------------------
  // The `data` dictionary.
  // ---------------------------------------------------------------------

  datatype IndexError = IndexError

  /** The dictionary after `'Time'` and the first `n` channels are stored. */
  function DataAfter(channels: seq<string>, aligned: seq<seq<real>>, n: nat): map<string, seq<real>>
    requires n <= |channels| && n < |aligned|
  {
    if n == 0 then map["Time" := aligned[0]]
    else DataAfter(channels, aligned, n - 1)[channels[n - 1] := aligned[n]]
  }

  /** The keys are `'Time'` and every channel stored so far. */
  lemma {:induction false} DataAfterKeys(channels: seq<string>, aligned: seq<seq<real>>, n: nat)
    requires n <= |channels| && n < |aligned|
    ensures forall c :: c in DataAfter(channels, aligned, n) <==> c == "Time" || c in channels[..n]
  {
    if n > 0 {
      DataAfterKeys(channels, aligned, n - 1);
      assert channels[..n] == channels[..n - 1] + [channels[n - 1]];
    }
  }

  /** A channel maps to the array of its last occurrence. */
  lemma {:induction false} DataAfterLastWins(channels: seq<string>, aligned: seq<seq<real>>, n: nat, j: nat)
    requires n <= |channels| && n < |aligned|
    requires j < n && channels[j] !in channels[j + 1..n]
    ensures channels[j] in DataAfter(channels, aligned, n)
    ensures DataAfter(channels, aligned, n)[channels[j]] == aligned[j + 1]
  {
    if j < n - 1 {
      assert channels[j + 1..n] == channels[j + 1..n - 1] + [channels[n - 1]];
      DataAfterLastWins(channels, aligned, n - 1, j);
    }
  }

  /** `'Time'` keeps the time axis unless a channel of that name overwrites it. */
  lemma {:induction false} DataAfterTime(channels: seq<string>, aligned: seq<seq<real>>, n: nat)
    requires n <= |channels| && n < |aligned|
    requires "Time" !in channels[..n]
    ensures "Time" in DataAfter(channels, aligned, n)
    ensures DataAfter(channels, aligned, n)["Time"] == aligned[0]
  {
    if n > 0 {
      assert channels[..n - 1] == channels[..n][..n - 1];
      assert channels[n - 1] in channels[..n];
      DataAfterTime(channels, aligned, n - 1);
    }
  }

  /** Lines 113-117: `'Time'` maps to the first aligned array and each
      channel to the array after it, a later duplicate name overwriting an
      earlier one (a channel named `Time` overwrites the times). Too few
      arrays raise `IndexError`. */
  method AssembleData(channels: seq<string>, aligned: seq<seq<real>>)
    returns (r: Result<map<string, seq<real>>, IndexError>)
    ensures r.Err? <==> |aligned| <= |channels|
    ensures r.Ok? ==> forall c :: c in r.value <==> c == "Time" || c in channels
    ensures r.Ok? ==> forall i :: 0 <= i < |channels| && channels[i] !in channels[i + 1..] ==>
      channels[i] in r.value && r.value[channels[i]] == aligned[i + 1]
    ensures r.Ok? && "Time" !in channels ==> "Time" in r.value && r.value["Time"] == aligned[0]
  {
    if |aligned| == 0 {
      return Err(IndexError);
    }
    var data := map["Time" := aligned[0]];
    for i := 0 to |channels|
      invariant i < |aligned|
      invariant data == DataAfter(channels, aligned, i)
    {
      if i + 1 >= |aligned| {
        return Err(IndexError);
      }
      data := data[channels[i] := aligned[i + 1]];
    }
    var n := |channels|;
    assert channels[..n] == channels;
    DataAfterKeys(channels, aligned, n);
    forall i | 0 <= i < n && channels[i] !in channels[i + 1..]
      ensures channels[i] in data && data[channels[i]] == aligned[i + 1]
    {
      DataAfterLastWins(channels, aligned, n, i);
    }
    if "Time" !in channels {
      DataAfterTime(channels, aligned, n);
    }
    return Ok(data);
  }
}
