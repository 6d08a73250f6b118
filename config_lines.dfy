/** The reading of one configuration-file line shared by the driver scripts:
    strip it, skip it when blank or a `#` comment, otherwise unpack
    `key, value = line.split('=')`. */
module ConfigLines {
  import opened Text

  /** The two `ValueError`s of unpacking a split into exactly two names. */
  datatype UnpackError = NeedMoreValues | TooManyValues

  datatype Line =
    | Skipped
    | Entry(key: string, value: string)
    | Malformed(error: UnpackError)

  predicate IsComment(line: string) {
    line != [] && line[0] == '#'
  }

  /** What one line of a configuration file is: neither key nor value is
      stripped here; only the whole line is. */
  function Classify(raw: string): (l: Line)
    ensures l.Skipped? <==> AllSpace(raw) || IsComment(Strip(raw))
    ensures l.Malformed? <==> !l.Skipped? && Count(Strip(raw), '=') != 1
    ensures l == Malformed(NeedMoreValues) <==> !l.Skipped? && Count(Strip(raw), '=') == 0
    ensures l.Entry? ==> Strip(raw) == l.key + "=" + l.value && '=' !in l.key && '=' !in l.value
  {
    var line := Strip(raw);
    if line == [] || line[0] == '#' then Skipped
    else
      var parts := Split(line, '=');
      if |parts| < 2 then Malformed(NeedMoreValues)
      else if |parts| > 2 then Malformed(TooManyValues)
      else
        JoinSplit(line, '=');
        Entry(parts[0], parts[1])
  }

  /** Some kept line does not hold exactly one `=`. */
  predicate HasMalformed(lines: seq<string>) {
    exists i :: 0 <= i < |lines| && Classify(lines[i]).Malformed?
  }

  lemma MalformedStep(lines: seq<string>)
    requires lines != []
    ensures HasMalformed(lines) <==>
      HasMalformed(lines[..|lines| - 1]) || Classify(lines[|lines| - 1]).Malformed?
  {
    var prefix := lines[..|lines| - 1];
    if HasMalformed(lines) {
      var i :| 0 <= i < |lines| && Classify(lines[i]).Malformed?;
      if i < |lines| - 1 {
        assert prefix[i] == lines[i];
      }
    }
    if HasMalformed(prefix) {
      var i :| 0 <= i < |prefix| && Classify(prefix[i]).Malformed?;
      assert lines[i] == prefix[i];
    }
  }

  /** A `key=value` line without surrounding whitespace, that is not a
      comment, reads back as exactly that key and value. */
  lemma EntryRoundTrip(key: string, value: string)
    requires '=' !in key && '=' !in value
    requires key != [] ==> !IsSpace(key[0]) && key[0] != '#'
    requires value != [] ==> !IsSpace(value[|value| - 1])
    ensures Classify(key + "=" + value) == Entry(key, value)
  {
    JoinPair(key, value);
    SplitJoin([key, value], '=');
    TrimmedPair(key, value);
    ClassifyUnpacked(key + "=" + value, key, value);
  }

  lemma JoinPair(key: string, value: string)
    ensures Join([key, value], '=') == key + "=" + value
  {
    assert [key, value][1..] == [value];
  }

  lemma TrimmedPair(key: string, value: string)
    requires key != [] ==> !IsSpace(key[0]) && key[0] != '#'
    requires value != [] ==> !IsSpace(value[|value| - 1])
    ensures Strip(key + "=" + value) == key + "=" + value
    ensures (key + "=" + value)[0] != '#'
  {
    var line := key + "=" + value;
    assert line[0] == if key == [] then '=' else key[0];
    assert line[|line| - 1] == if value == [] then '=' else value[|value| - 1];
    StripTrimmed(line);
  }

  lemma ClassifyUnpacked(line: string, key: string, value: string)
    requires Strip(line) == line && line != [] && line[0] != '#'
    requires Split(line, '=') == [key, value]
    ensures Classify(line) == Entry(key, value)
  {
  }
}
