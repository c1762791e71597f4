/** The string operations the tools use, on sequences of characters. */
module Text {
  datatype Option<+T> = None | Some(value: T)

  datatype Result<+T, +E> = Ok(value: T) | Err(error: E)

  predicate StartsWith(s: string, prefix: string) {
    |prefix| <= |s| && s[..|prefix|] == prefix
  }

  predicate EndsWith(s: string, suffix: string) {
    |suffix| <= |s| && s[|s| - |suffix|..] == suffix
  }

  /** `part in s` */
  predicate Contains(s: string, part: string) {
    exists i | 0 <= i <= |s| :: StartsWith(s[i..], part)
  }

  /** Letters outside ASCII are left alone. */
  function Lower(s: string): (r: string)
    ensures |r| == |s|
  {
    seq(|s|, i requires 0 <= i < |s| => if 'A' <= s[i] <= 'Z' then (s[i] as int + 32) as char else s[i])
  }

  /** `s[:n]` */
  function Take(s: string, n: nat): string {
    if |s| <= n then s else s[..n]
  }

  /** The parts of s between occurrences of the separator. */
  function Split(s: string, separator: char): seq<string> {
    if s == [] then [[]]
    else
      var rest := Split(s[1..], separator);
      if s[0] == separator then [[]] + rest
      else if rest == [] then [[s[0]]]
      else [[s[0]] + rest[0]] + rest[1..]
  }

  /** `separator.join(parts)` */
  function Join(parts: seq<string>, separator: string): string {
    if parts == [] then ""
    else if |parts| == 1 then parts[0]
    else Join(parts[..|parts| - 1], separator) + separator + parts[|parts| - 1]
  }

  /** Python's `str.isspace`. */
  predicate IsSpace(c: char) {
    var n := c as int;
    || 9 <= n <= 13 || 28 <= n <= 32 || n == 0x85 || n == 0xa0 || n == 0x1680 || 0x2000 <= n <= 0x200a
    || n == 0x2028 || n == 0x2029 || n == 0x202f || n == 0x205f || n == 0x3000
  }

  function StripLeft(s: string): string {
    if s != [] && IsSpace(s[0]) then StripLeft(s[1..]) else s
  }

  function StripRight(s: string): string {
    if s != [] && IsSpace(s[|s| - 1]) then StripRight(s[..|s| - 1]) else s
  }

  /** `s.strip()` */
  function Strip(s: string): string {
    StripRight(StripLeft(s))
  }

  // ---- what the operations mean ------------------------------------------------------------

  /** The same character, or the two cases of one ASCII letter. */
  predicate SameLetter(c: char, d: char) {
    || c == d
    || ('A' <= c <= 'Z' && d as int == c as int + 32)
    || ('A' <= d <= 'Z' && c as int == d as int + 32)
  }

  predicate SameUpToCase(s: string, t: string) {
    |s| == |t| && forall i | 0 <= i < |s| :: SameLetter(s[i], t[i])
  }

  /** Lower-casing forgets the case of ASCII letters and nothing else. */
  lemma LowerIff(s: string, t: string)
    ensures Lower(s) == Lower(t) <==> SameUpToCase(s, t)
  {
    if Lower(s) == Lower(t) {
      forall i | 0 <= i < |s| ensures SameLetter(s[i], t[i]) {
        assert Lower(s)[i] == Lower(t)[i];
      }
    }
  }

  /** What is lower-cased has no capital letter, and is the text itself up to case. */
  lemma LowerHasNoCapitals(s: string)
    ensures (forall c | c in Lower(s) :: !('A' <= c <= 'Z')) && SameUpToCase(Lower(s), s)
    ensures (forall i | 0 <= i < |s| :: !('A' <= s[i] <= 'Z')) ==> Lower(s) == s
  {
  }

  lemma StartsWithIff(s: string, prefix: string)
    ensures StartsWith(s, prefix) <==> exists rest :: s == prefix + rest
  {
    if StartsWith(s, prefix) {
      assert s == prefix + s[|prefix|..];
    }
  }

  lemma EndsWithIff(s: string, suffix: string)
    ensures EndsWith(s, suffix) <==> exists rest :: s == rest + suffix
  {
    if EndsWith(s, suffix) {
      assert s == s[..|s| - |suffix|] + suffix;
    }
  }

  lemma ContainsIff(s: string, part: string)
    ensures Contains(s, part) <==> exists before, after :: s == before + part + after
  {
    if Contains(s, part) {
      var i :| 0 <= i <= |s| && StartsWith(s[i..], part);
      assert s == s[..i] + part + s[i..][|part|..];
    }
    if before, after :| s == before + part + after {
      assert s[|before|..][..|part|] == part;
      assert StartsWith(s[|before|..], part);
    }
  }

  /** The part stands at i, between two separators or the ends. */
  predicate PartAt(s: string, i: nat, part: string, separator: char) {
    && i + |part| <= |s| && s[i..i + |part|] == part
    && (i == 0 || s[i - 1] == separator) && (i + |part| == |s| || s[i + |part|] == separator)
  }

  predicate IsPart(s: string, part: string, separator: char) {
    exists i: nat | i <= |s| :: PartAt(s, i, part, separator)
  }

  lemma {:induction false} FirstPart(s: string, separator: char)
    ensures Split(s, separator) != [] && separator !in Split(s, separator)[0]
    ensures Split(s, separator)[0] <= s
    ensures var n := |Split(s, separator)[0]|;
            if n == |s| then Split(s, separator) == [s]
            else s[n] == separator && Split(s, separator)[1..] == Split(s[n + 1..], separator)
  {
    if s == [] {
    } else {
      FirstPart(s[1..], separator);
      var n := |Split(s, separator)[0]|;
      if s[0] == separator {
        assert s[1..] == s[n + 1..];
      } else {
        var rest := Split(s[1..], separator);
        assert Split(s, separator)[1..] == rest[1..];
        assert s == [s[0]] + s[1..];
        assert n < |s| ==> s[1..][n - 1 + 1..] == s[n + 1..];
      }
    }
  }

  /** The parts are exactly the stretches without separators between two of them or the ends. */
  lemma {:induction false} SplitIff(s: string, part: string, separator: char)
    requires separator !in part
    ensures part in Split(s, separator) <==> IsPart(s, part, separator)
    decreases |s|
  {
    var parts := Split(s, separator);
    FirstPart(s, separator);
    var n := |parts[0]|;
    assert parts == [parts[0]] + parts[1..] && parts[0] == s[..n];
    if n < |s| {
      SplitIff(s[n + 1..], part, separator);
      LaterPart(s, n, part, separator);
    } else {
      WholePart(s, part, separator);
    }
  }

  lemma WholePart(s: string, part: string, separator: char)
    requires separator !in s
    ensures IsPart(s, part, separator) <==> part == s
  {
    if part == s {
      assert PartAt(s, 0, part, separator);
    }
  }

  lemma LaterPart(s: string, n: nat, part: string, separator: char)
    requires n < |s| && s[n] == separator && separator !in s[..n] && separator !in part
    ensures IsPart(s, part, separator) <==> part == s[..n] || IsPart(s[n + 1..], part, separator)
  {
    hide PartAt;
    forall i: nat | i <= |s|
      ensures PartAt(s, i, part, separator)
              <==> if i <= n then i == 0 && part == s[..n] else PartAt(s[n + 1..], i - n - 1, part, separator)
    {
      PartAfter(s, n, i, part, separator);
    }
    if part == s[..n] {
      assert PartAt(s, 0, part, separator);
    }
    var rest := s[n + 1..];
    if IsPart(rest, part, separator) {
      var j: nat :| j <= |rest| && PartAt(rest, j, part, separator);
      assert PartAt(s, j + n + 1, part, separator);
    }
  }

  lemma PartAfter(s: string, n: nat, i: nat, part: string, separator: char)
    requires n < |s| && s[n] == separator && separator !in s[..n] && separator !in part
    ensures PartAt(s, i, part, separator)
            <==> if i <= n then i == 0 && part == s[..n] else PartAt(s[n + 1..], i - n - 1, part, separator)
  {
    if i == 0 {
      assert |part| > n && |part| <= |s| ==> s[0..0 + |part|][n] == s[n];
      assert |part| < n ==> s[..n][|part|] == s[|part|];
      assert |part| == n ==> s[0..0 + |part|] == s[..n];
    } else if i <= n {
      assert s[..n][i - 1] == s[i - 1];
    } else if i + |part| <= |s| {
      assert s[n + 1..][i - n - 1..i - n - 1 + |part|] == s[i..i + |part|];
    }
  }

  lemma {:induction false} JoinFront(parts: seq<string>, separator: string)
    requires |parts| > 1
    ensures Join(parts, separator) == parts[0] + separator + Join(parts[1..], separator)
  {
    var before, last := parts[..|parts| - 1], parts[|parts| - 1];
    if |parts| == 2 {
      assert before == [parts[0]] && parts[1..] == [last];
    } else {
      JoinFront(before, separator);
      assert parts[1..][..|parts| - 2] == before[1..];
    }
  }

  /** What `strip` takes away: blanks and line ends, and nothing that is printed. */
  lemma SpacesOfAscii(c: char)
    ensures IsSpace(' ') && IsSpace('\t') && IsSpace('\n') && IsSpace('\r')
    ensures '!' <= c <= '~' ==> !IsSpace(c)
  {
  }
}
