/** The few Python 2 `str` operations the configuration readers use:
    `strip()`, `startswith('#')`, `split('=')`. */
module Text {

  /** Python 2 `str.isspace()` on one byte: space, tab, newline, carriage
      return, vertical tab and form feed. */
  predicate IsSpace(c: char) {
    c == ' ' || c == '\t' || c == '\n' || c == '\r' || c == 11 as char || c == 12 as char
  }

  predicate AllSpace(s: string) {
    forall i :: 0 <= i < |s| ==> IsSpace(s[i])
  }

  /** Number of leading whitespace characters. */
  function LeadingSpace(s: string): (k: nat)
    ensures k <= |s|
    ensures AllSpace(s[..k])
    ensures k < |s| ==> !IsSpace(s[k])
  {
    if s != [] && IsSpace(s[0]) then 1 + LeadingSpace(s[1..]) else 0
  }

  /** Number of trailing whitespace characters. */
  function TrailingSpace(s: string): (k: nat)
    ensures k <= |s|
    ensures AllSpace(s[|s| - k..])
    ensures k < |s| ==> !IsSpace(s[|s| - 1 - k])
  {
    if s != [] && IsSpace(s[|s| - 1]) then 1 + TrailingSpace(s[..|s| - 1]) else 0
  }

  /** `s.strip()`: the longest slice of `s` that neither starts nor ends with
      whitespace, after removing only whitespace from both ends. */
  function Strip(s: string): (r: string)
    ensures r == [] <==> AllSpace(s)
    ensures r != [] ==> !IsSpace(r[0]) && !IsSpace(r[|r| - 1])
  {
    var i := LeadingSpace(s);
    var t := s[i..];
    var k := TrailingSpace(t);
    t[..|t| - k]
  }

  /** What `strip()` keeps is a slice of the string with only whitespace
      on either side of it. */
  lemma StripSlice(s: string)
    ensures exists i, j :: 0 <= i <= j <= |s| && Strip(s) == s[i..j] && AllSpace(s[..i]) && AllSpace(s[j..])
  {
    var i := LeadingSpace(s);
    var t := s[i..];
    var k := TrailingSpace(t);
    var j := i + |t| - k;
    assert Strip(s) == t[..|t| - k] == s[i..j];
    assert s[j..] == t[|t| - k..];
    assert AllSpace(s[..i]) && AllSpace(s[j..]);
  }

  /** Stripping a string that neither starts nor ends with whitespace leaves it alone. */
  lemma {:induction false} StripTrimmed(s: string)
    requires s != [] ==> !IsSpace(s[0]) && !IsSpace(s[|s| - 1])
    ensures Strip(s) == s
  {
    if s != [] {
      assert LeadingSpace(s) == 0;
      assert TrailingSpace(s) == 0;
    }
  }

  /** `strip()` is idempotent. */
  lemma StripIdempotent(s: string)
    ensures Strip(Strip(s)) == Strip(s)
  {
    StripTrimmed(Strip(s));
  }

  /** Whatever `strip()` keeps was in the string. */
  lemma StripKeeps(s: string, c: char)
    requires c in Strip(s)
    ensures c in s
  {
    StripSlice(s);
    var i, j :| 0 <= i <= j <= |s| && Strip(s) == s[i..j] && AllSpace(s[..i]) && AllSpace(s[j..]);
    var n :| 0 <= n < |Strip(s)| && Strip(s)[n] == c;
    assert s[i + n] == c;
  }

  /** How many times `c` occurs in `s`, as `s.count(c)`. */
  function Count(s: string, c: char): nat {
    if s == [] then 0 else (if s[0] == c then 1 else 0) + Count(s[1..], c)
  }

  /** `s.split(sep)` for a one-character separator: the pieces between
      separators, one more than there are separators, none holding one. */
  function Split(s: string, sep: char): (parts: seq<string>)
    ensures |parts| == Count(s, sep) + 1
    ensures forall i :: 0 <= i < |parts| ==> sep !in parts[i]
    decreases |s|
  {
    if s == [] then [[]]
    else
      var rest := Split(s[1..], sep);
      if s[0] == sep then [[]] + rest
      else [[s[0]] + rest[0]] + rest[1..]
  }

  /** `sep.join(parts)` */
  function Join(parts: seq<string>, sep: char): string
    requires |parts| > 0
  {
    if |parts| == 1 then parts[0] else parts[0] + [sep] + Join(parts[1..], sep)
  }

  /** Joining the pieces of a split gives back the string. */
  lemma {:induction false} JoinSplit(s: string, sep: char)
    ensures Join(Split(s, sep), sep) == s
    decreases |s|
  {
    if s != [] {
      var rest := Split(s[1..], sep);
      JoinSplit(s[1..], sep);
      if s[0] == sep {
        assert Split(s, sep)[1..] == rest;
        assert s == [sep] + s[1..];
      } else if |rest| == 1 {
        assert Split(s, sep) == [[s[0]] + rest[0]];
        assert s == [s[0]] + s[1..];
      } else {
        var parts := Split(s, sep);
        assert parts[1..] == rest[1..];
        assert Join(rest, sep) == rest[0] + [sep] + Join(rest[1..], sep);
        assert s == [s[0]] + s[1..];
      }
    }
  }

  /** Splitting pieces joined by a separator none of them holds gives back the pieces. */
  lemma {:induction false} SplitJoin(parts: seq<string>, sep: char)
    requires |parts| > 0
    requires forall i :: 0 <= i < |parts| ==> sep !in parts[i]
    ensures Split(Join(parts, sep), sep) == parts
    decreases |parts|, |parts[0]|
  {
    var p := parts[0];
    if p == [] {
      if |parts| > 1 {
        SplitJoin(parts[1..], sep);
        assert Join(parts, sep) == [sep] + Join(parts[1..], sep);
        assert [[]] + parts[1..] == parts;
      }
    } else {
      var tail := [p[1..]] + parts[1..];
      assert p[0] != sep by { assert p[0] in p; }
      assert forall i :: 0 <= i < |tail| ==> sep !in tail[i] by {
        forall i | 0 <= i < |tail| ensures sep !in tail[i] {
          if i > 0 {
            assert tail[i] == parts[i];
          }
        }
      }
      SplitJoin(tail, sep);
      assert Join(parts, sep) == [p[0]] + Join(tail, sep) by {
        if |parts| == 1 {
          assert tail == [p[1..]];
        } else {
          assert tail[1..] == parts[1..];
        }
      }
      assert Join(parts, sep)[1..] == Join(tail, sep);
      assert [p[0]] + tail[0] == p;
      assert tail[1..] == parts[1..];
    }
  }
}
