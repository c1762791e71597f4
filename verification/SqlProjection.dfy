/** tools/verify_rds_recovery_drill_preflight.py, top_level_projection: one scan finds the top-level
    FROM of a SELECT, a second one splits what stands before it at its top-level commas. */
module SqlProjection {
  import opened Text

  // ---- parentheses -------------------------------------------------------------------------

  function Turn(c: char): int {
    if c == '(' then 1 else if c == ')' then -1 else 0
  }

  /** Opening minus closing parentheses; a text may close more than it opens. */
  function Net(s: string): int {
    if s == [] then 0 else Net(s[..|s| - 1]) + Turn(s[|s| - 1])
  }

  lemma {:induction false} NetOfTwo(s: string, t: string)
    ensures Net(s + t) == Net(s) + Net(t)
  {
    if t == [] {
      assert s + t == s;
    } else {
      NetOfTwo(s, t[..|t| - 1]);
      assert (s + t)[..|s + t| - 1] == s + t[..|t| - 1];
    }
  }

  lemma NetOfMore(s: string, i: nat)
    requires i < |s|
    ensures Net(s[..i + 1]) == Net(s[..i]) + Turn(s[i])
  {
    assert s[..i + 1][..i] == s[..i];
  }

  // ---- whitespace --------------------------------------------------------------------------

  /** `s.split()` */
  function Words(s: string): (words: seq<string>)
    ensures s != [] && !IsSpace(s[0]) ==> words != []
  {
    if s == [] then []
    else if IsSpace(s[0]) then Words(s[1..])
    else if |s| == 1 || IsSpace(s[1]) then [[s[0]]] + Words(s[1..])
    else
      var rest := Words(s[1..]);
      [[s[0]] + rest[0]] + rest[1..]
  }

  function Compact(sql: string): string {
    Join(Words(sql), " ")
  }

  ghost predicate IsWord(w: string) {
    w != "" && forall i | 0 <= i < |w| :: !IsSpace(w[i])
  }

  lemma {:induction false} WordInFront(w: string, rest: string)
    requires IsWord(w)
    ensures Words(w + " " + rest) == [w] + Words(rest)
  {
    var s := w + " " + rest;
    if |w| == 1 {
      assert s[1..] == " " + rest && (" " + rest)[1..] == rest;
      assert [s[0]] == w;
    } else {
      assert s[1..] == w[1..] + " " + rest;
      WordInFront(w[1..], rest);
      assert [s[0]] + w[1..] == w;
    }
  }

  lemma {:induction false} OneWord(w: string)
    requires IsWord(w)
    ensures Words(w) == [w]
  {
    if |w| == 1 {
      assert w[1..] == [] && [w[0]] == w;
    } else {
      OneWord(w[1..]);
      assert [w[0]] + w[1..] == w;
    }
  }

  /** Splitting joined words gives the words back. */
  lemma {:induction false} WordsOfJoined(words: seq<string>)
    requires forall w | w in words :: IsWord(w)
    ensures Words(Join(words, " ")) == words
  {
    hide IsWord, Words, Join;
    if words == [] {
      NoWords();
    } else if |words| == 1 {
      OneWord(words[0]);
      JoinOne(words[0]);
      assert words == [words[0]];
    } else {
      JoinFront(words, " ");
      WordInFront(words[0], Join(words[1..], " "));
      WordsOfJoined(words[1..]);
      assert words == [words[0]] + words[1..];
    }
  }

  lemma NoWords()
    ensures Words(Join([], " ")) == []
  {
  }

  lemma JoinOne(w: string)
    ensures Join([w], " ") == w
  {
  }

  lemma {:induction false} WordsAreWords(s: string)
    ensures forall w | w in Words(s) :: IsWord(w)
  {
    if s == [] {
    } else {
      WordsAreWords(s[1..]);
      if |s| > 1 && !IsSpace(s[0]) && !IsSpace(s[1]) {
        var rest := Words(s[1..]);
        assert rest[0] in rest && IsWord([s[0]] + rest[0]);
      }
    }
  }

  /** A compact text stays as it is. */
  lemma CompactAgain(sql: string)
    ensures Compact(Compact(sql)) == Compact(sql)
  {
    WordsAreWords(sql);
    WordsOfJoined(Words(sql));
  }

  /** The stretch that `strip` leaves of a text. */
  ghost predicate Trims(s: string, a: nat, b: nat) {
    && a <= b <= |s| && Strip(s) == s[a..b]
    && (forall i | 0 <= i < a :: IsSpace(s[i])) && (forall i | b <= i < |s| :: IsSpace(s[i]))
    && (a < b ==> !IsSpace(s[a]) && !IsSpace(s[b - 1]))
  }

  lemma {:induction false} LeftStretch(s: string) returns (a: nat)
    ensures a <= |s| && StripLeft(s) == s[a..] && (forall i | 0 <= i < a :: IsSpace(s[i]))
    ensures a < |s| ==> !IsSpace(s[a])
  {
    a := 0;
    if s != [] && IsSpace(s[0]) {
      var rest := LeftStretch(s[1..]);
      a := rest + 1;
    }
  }

  lemma {:induction false} RightStretch(s: string) returns (b: nat)
    ensures b <= |s| && StripRight(s) == s[..b] && (forall i | b <= i < |s| :: IsSpace(s[i]))
    ensures b > 0 ==> !IsSpace(s[b - 1])
  {
    b := |s|;
    if s != [] && IsSpace(s[|s| - 1]) {
      b := RightStretch(s[..|s| - 1]);
    }
  }

  lemma Stretch(s: string) returns (a: nat, b: nat)
    ensures Trims(s, a, b)
  {
    a := LeftStretch(s);
    var rest := RightStretch(s[a..]);
    b := a + rest;
  }

  lemma StripAgain(s: string)
    ensures Strip(Strip(s)) == Strip(s)
  {
    var a, b := Stretch(s);
    var _, _ := Stretch(s[a..b]);
  }

  lemma {:induction false} NetOfSpaces(s: string)
    requires forall i | 0 <= i < |s| :: IsSpace(s[i])
    ensures Net(s) == 0
  {
    if s == [] {
    } else {
      NetOfSpaces(s[..|s| - 1]);
    }
  }

  // ---- the FROM word -----------------------------------------------------------------------

  /** What a regular expression takes for a word character: at least the ASCII ones, no whitespace
      and no punctuation. */
  ghost predicate WordClass(word: char -> bool) {
    && (forall c: char :: IsSpace(c) ==> !word(c))
    && (forall c: char :: 'a' <= c <= 'z' || 'A' <= c <= 'Z' ==> word(c))
    && !word(',')
  }

  predicate FromAt(s: string, i: nat, word: char -> bool) {
    && i + 4 <= |s| && Lower(s[i..i + 4]) == "from"
    && (i == 0 || !word(s[i - 1])) && (i + 4 == |s| || !word(s[i + 4]))
  }

  predicate TopLevelFrom(s: string, i: nat, word: char -> bool) {
    FromAt(s, i, word) && Net(s[..i]) == 0
  }

  method FindFrom(s: string, word: char -> bool) returns (at: Option<nat>)
    ensures at.Some? ==> at.value < |s| && TopLevelFrom(s, at.value, word) && forall i | 0 <= i < at.value :: !TopLevelFrom(s, i, word)
    ensures at.None? ==> forall i | 0 <= i < |s| :: !TopLevelFrom(s, i, word)
  {
    hide FromAt;
    var depth := 0;
    for i := 0 to |s|
      invariant depth == Net(s[..i])
      invariant forall j | 0 <= j < i :: !TopLevelFrom(s, j, word)
    {
      if s[i] == '(' {
        ParenthesisIsNoFrom(s, i, word);
        depth := depth + 1;
      } else if s[i] == ')' {
        ParenthesisIsNoFrom(s, i, word);
        depth := depth - 1;
      } else if FromAt(s, i, word) && depth == 0 {
        return Some(i);
      }
      NetOfMore(s, i);
    }
    return None;
  }

  lemma ParenthesisIsNoFrom(s: string, i: nat, word: char -> bool)
    requires i < |s| && s[i] in "()"
    ensures !FromAt(s, i, word)
  {
    assert i + 4 <= |s| ==> Lower(s[i..i + 4])[0] != 'f';
  }

  // ---- splitting at the commas -------------------------------------------------------------

  /** The parts of p between its top-level commas, untrimmed. */
  function Fragments(p: string): (fragments: seq<string>)
    ensures fragments != []
  {
    if p == [] then [""]
    else
      var before, c := Fragments(p[..|p| - 1]), p[|p| - 1];
      if c == ',' && Net(p[..|p| - 1]) == 0 then before + [""]
      else before[..|before| - 1] + [before[|before| - 1] + [c]]
  }

  function Trimmed(fragments: seq<string>): (items: seq<string>)
    ensures |items| == |fragments| && forall i | 0 <= i < |items| :: items[i] == Strip(fragments[i])
  {
    seq(|fragments|, i requires 0 <= i < |fragments| => Strip(fragments[i]))
  }

  /** Every fragment trimmed, a blank last one left out. */
  function Items(p: string): seq<string> {
    var fragments := Fragments(p);
    var last := |fragments| - 1;
    if Strip(fragments[last]) == "" then Trimmed(fragments[..last]) else Trimmed(fragments)
  }

  /** The state of the splitting loop: closed fragments trimmed, the open one as it is. */
  ghost predicate Collected(items: seq<string>, current: string, fragments: seq<string>) {
    fragments != [] && fragments[|fragments| - 1] == current && items == Trimmed(fragments[..|fragments| - 1])
  }

  lemma CollectedMore(items: seq<string>, current: string, p: string, c: char)
    requires Collected(items, current, Fragments(p))
    ensures c == ',' && Net(p) == 0 ==> Collected(items + [Strip(current)], "", Fragments(p + [c]))
    ensures !(c == ',' && Net(p) == 0) ==> Collected(items, current + [c], Fragments(p + [c]))
  {
  }

  method SplitItems(p: string) returns (items: seq<string>)
    ensures items == Items(p)
  {
    assert Collected([], "", Fragments(""));
    hide Strip, Fragments, Collected;
    items := [];
    var depth, current := 0, "";
    for i := 0 to |p|
      invariant depth == Net(p[..i])
      invariant Collected(items, current, Fragments(p[..i]))
    {
      var character := p[i];
      assert p[..i + 1] == p[..i] + [character];
      NetOfMore(p, i);
      CollectedMore(items, current, p[..i], character);
      if character == '(' {
        depth := depth + 1;
      } else if character == ')' {
        depth := depth - 1;
      }
      if character == ',' && depth == 0 {
        items := items + [Strip(current)];
        current := "";
      } else {
        current := current + [character];
      }
    }
    assert p[..|p|] == p;
    if Strip(current) != "" {
      items := items + [Strip(current)];
    }
  }

  datatype DrillError = NotSelect | NoTopLevelFrom

  /** `^select\s`, ignoring case: U+017F is also a small letter s. */
  predicate BeginsWithSelect(s: string) {
    && |s| > 6 && (Lower(s[..1]) == "s" || s[0] == '\U{17f}') && Lower(s[1..6]) == "elect" && IsSpace(s[6])
  }

  /** The projection of a query: what stands between SELECT and its first top-level FROM. */
  ghost predicate IsProjection(p: string, sql: string, word: char -> bool) {
    var compact := Compact(sql);
    && BeginsWithSelect(compact)
    && |p| <= |compact| - 6 && p == compact[6..6 + |p|]
    && TopLevelFrom(compact[6..], |p|, word) && forall i | 0 <= i < |p| :: !TopLevelFrom(compact[6..], i, word)
  }

  method TopLevelProjection(sql: string, word: char -> bool) returns (r: Result<seq<string>, DrillError>)
    ensures r.Ok? ==> exists p :: IsProjection(p, sql, word) && r.value == Items(p)
    ensures r.Err? ==> forall p :: !IsProjection(p, sql, word)
    ensures r == Err(NotSelect) <==> !BeginsWithSelect(Compact(sql))
  {
    hide TopLevelFrom, Compact, Items;
    var compact := Compact(sql);
    if !BeginsWithSelect(compact) { return Err(NotSelect); }
    assert |compact| > 6;
    hide BeginsWithSelect;
    var from := FindFrom(compact[6..], word);
    if from.None? {
      NoFromPastTheEnd(compact[6..], word);
      return Err(NoTopLevelFrom);
    }
    var projection := compact[6..][..from.value];
    assert projection == compact[6..6 + from.value];
    assert IsProjection(projection, sql, word);
    var items := SplitItems(projection);
    return Ok(items);
  }

  lemma NoFromPastTheEnd(s: string, word: char -> bool)
    ensures forall i: nat | i >= |s| :: !TopLevelFrom(s, i, word)
  {
  }

  // ---- the split is the only one there is --------------------------------------------------

  ghost predicate NoTopLevelComma(s: string) {
    forall i | 0 <= i < |s| && s[i] == ',' :: Net(s[..i]) != 0
  }

  /** Rejoining gives the text back, no part has a top-level comma, and every comma between two
      parts is at depth zero. */
  ghost predicate SplitsAtCommas(parts: seq<string>, p: string) {
    && parts != [] && Join(parts, ",") == p
    && (forall s | s in parts :: NoTopLevelComma(s))
    && forall k | 0 <= k < |parts| - 1 :: Net(parts[k]) == 0
  }

  lemma {:induction false} NetOfParts(parts: seq<string>)
    requires parts != [] && forall k | 0 <= k < |parts| - 1 :: Net(parts[k]) == 0
    ensures Net(Join(parts, ",")) == Net(parts[|parts| - 1])
  {
    if |parts| <= 1 {
    } else {
      var before, last := parts[..|parts| - 1], parts[|parts| - 1];
      NetOfParts(before);
      NetOfTwo(Join(before, ",") + ",", last);
      NetOfTwo(Join(before, ","), ",");
    }
  }

  lemma JoinLonger(parts: seq<string>, c: char)
    requires parts != []
    ensures Join(parts[..|parts| - 1] + [parts[|parts| - 1] + [c]], ",") == Join(parts, ",") + [c]
  {
  }

  lemma {:induction false} FragmentsSplit(p: string)
    ensures SplitsAtCommas(Fragments(p), p)
  {
    hide Net, Join, NoTopLevelComma, SplitsAtCommas;
    if p == [] {
      OneEmptyPart("");
    } else {
      var shorter, c := p[..|p| - 1], p[|p| - 1];
      var before := Fragments(shorter);
      FragmentsSplit(shorter);
      NetOfSplit(before, shorter);
      assert p == shorter + [c];
      if c == ',' && Net(shorter) == 0 {
        NewPartStarts(before, shorter);
      } else {
        LastPartGrows(before, shorter, c);
      }
    }
  }

  lemma NetOfSplit(parts: seq<string>, p: string)
    requires SplitsAtCommas(parts, p)
    ensures parts != [] && Net(p) == Net(parts[|parts| - 1])
  {
    NetOfParts(parts);
  }

  lemma NewPartStarts(parts: seq<string>, p: string)
    requires SplitsAtCommas(parts, p) && Net(parts[|parts| - 1]) == 0
    ensures SplitsAtCommas(parts + [""], p + ",")
  {
  }

  lemma LastPartGrows(parts: seq<string>, p: string, c: char)
    requires SplitsAtCommas(parts, p) && (c == ',' ==> Net(parts[|parts| - 1]) != 0)
    ensures SplitsAtCommas(parts[..|parts| - 1] + [parts[|parts| - 1] + [c]], p + [c])
  {
    hide Net, NoTopLevelComma, Join;
    var before, last := parts[..|parts| - 1], parts[|parts| - 1];
    assert last in parts;
    JoinLonger(parts, c);
    LongerPart(last, c);
    assert forall s :: s in before + [last + [c]] ==> s in parts || s == last + [c];
  }

  lemma LongerPart(s: string, c: char)
    requires NoTopLevelComma(s) && (c == ',' ==> Net(s) != 0)
    ensures NoTopLevelComma(s + [c])
  {
    forall i | 0 <= i <= |s| ensures (s + [c])[..i] == s[..i] {
    }
    assert s[..|s|] == s;
  }

  lemma ShorterPart(s: string)
    requires s != [] && NoTopLevelComma(s)
    ensures NoTopLevelComma(s[..|s| - 1]) && (s[|s| - 1] == ',' ==> Net(s[..|s| - 1]) != 0)
  {
    forall i | 0 <= i < |s| ensures s[..|s| - 1][..i] == s[..i] {
    }
  }

  lemma OneEmptyPart(p: string)
    ensures SplitsAtCommas([""], p) <==> p == ""
  {
  }

  /** Taking the last character away from a split. */
  lemma SplitShorter(parts: seq<string>, p: string) returns (shorter: seq<string>)
    requires SplitsAtCommas(parts, p) && parts[|parts| - 1] != []
    ensures p != [] && shorter != [] && SplitsAtCommas(shorter, p[..|p| - 1])
    ensures parts == shorter[..|shorter| - 1] + [shorter[|shorter| - 1] + [p[|p| - 1]]]
    ensures p[|p| - 1] == ',' ==> Net(p[..|p| - 1]) != 0
  {
    hide Net, NoTopLevelComma, Join;
    var before, last := parts[..|parts| - 1], parts[|parts| - 1];
    assert parts == before + [last] && last in parts;
    var open, c := last[..|last| - 1], last[|last| - 1];
    shorter := before + [open];
    assert last == open + [c] && shorter[..|shorter| - 1] == before;
    ShorterPart(last);
    JoinLonger(shorter, c);
    assert p == Join(shorter, ",") + [c];
    assert forall s :: s in shorter ==> s in parts || s == open;
    NetOfSplit(shorter, p[..|p| - 1]);
  }

  /** Taking an empty last part away, with the comma in front of it. */
  lemma SplitFewer(parts: seq<string>, p: string)
    requires SplitsAtCommas(parts, p) && |parts| > 1 && parts[|parts| - 1] == []
    ensures p != [] && p[|p| - 1] == ',' && Net(p[..|p| - 1]) == 0
    ensures SplitsAtCommas(parts[..|parts| - 1], p[..|p| - 1])
  {
    hide Net, NoTopLevelComma;
    var before := parts[..|parts| - 1];
    assert p == Join(before, ",") + ",";
    assert p[..|p| - 1] == Join(before, ",");
    assert forall s :: s in before ==> s in parts;
    NetOfSplit(before, p[..|p| - 1]);
  }

  /** There is only one such split. */
  lemma {:induction false} SplitUnique(parts: seq<string>, p: string)
    requires SplitsAtCommas(parts, p)
    ensures parts == Fragments(p)
    decreases |p|
  {
    hide SplitsAtCommas, Join, Net;
    NetOfSplit(parts, p);
    var before, last := parts[..|parts| - 1], parts[|parts| - 1];
    assert parts == before + [last];
    if last != [] {
      var shorter := SplitShorter(parts, p);
      SplitUnique(shorter, p[..|p| - 1]);
    } else if |parts| > 1 {
      SplitFewer(parts, p);
      SplitUnique(before, p[..|p| - 1]);
    } else {
      OneEmptyPart(p);
    }
  }

  // ---- what the items are ------------------------------------------------------------------

  /** f stands in p from start on: at depth zero, between two commas or the ends. */
  ghost predicate Stands(f: string, p: string, start: nat, last: bool) {
    && start + |f| <= |p| && p[start..start + |f|] == f && Net(p[..start]) == 0
    && (start == 0 || p[start - 1] == ',')
    && if last then start + |f| == |p| else start + |f| < |p| && p[start + |f|] == ','
  }

  /** A last fragment becomes longer, or is closed by a comma. */
  lemma StandsLonger(f: string, p: string, start: nat, last: bool, c: char)
    requires Stands(f, p, start, last)
    ensures !last ==> Stands(f, p + [c], start, false)
    ensures last ==> Stands(f + [c], p + [c], start, true)
    ensures last && c == ',' ==> Stands(f, p + [c], start, false)
  {
    hide Net;
    var longer := p + [c];
    assert longer[..start] == p[..start];
    assert longer[start..start + |f|] == p[start..start + |f|];
    assert last ==> longer[start..] == f + [c];
  }

  /** Where each fragment stands. */
  lemma {:induction false} FragmentPlace(p: string, k: nat) returns (start: nat)
    requires k < |Fragments(p)|
    ensures Stands(Fragments(p)[k], p, start, k == |Fragments(p)| - 1)
  {
    if p == [] {
      start := 0;
    } else {
      hide Stands;
      var shorter, c := p[..|p| - 1], p[|p| - 1];
      var before := Fragments(shorter);
      assert p == shorter + [c];
      if k == |before| {
        start := |p|;
        EmptyAtEnd(shorter);
      } else {
        start := FragmentPlace(shorter, k);
        StandsLonger(before[k], shorter, start, k == |before| - 1, c);
      }
    }
  }

  lemma EmptyAtEnd(p: string)
    requires Net(p) == 0
    ensures Stands("", p + ",", |p| + 1, true)
  {
    NetOfTwo(p, ",");
    assert (p + ",")[..|p| + 1] == p + ",";
  }

  lemma NetInside(s: string, a: nat, b: nat, j: nat)
    requires a <= b <= |s| && j <= b - a && Net(s[..a]) == 0
    ensures Net(s[..a + j]) == Net(s[a..b][..j])
  {
    assert s[..a + j] == s[..a] + s[a..b][..j];
    NetOfTwo(s[..a], s[a..b][..j]);
  }

  lemma SliceOfSlice(s: string, a: nat, b: nat, c: nat, d: nat)
    requires a <= b <= |s| && c <= d <= b - a
    ensures s[a..b][c..d] == s[a + c..a + d]
  {
    forall i | 0 <= i < d - c ensures s[a..b][c..d][i] == s[a + c..a + d][i] {
    }
  }

  /** A trimmed fragment, seen in its text: non-word characters or the ends around it. */
  lemma ItemPlace(p: string, k: nat, word: char -> bool) returns (a: nat, b: nat)
    requires WordClass(word) && k < |Fragments(p)|
    ensures a <= b <= |p| && p[a..b] == Strip(Fragments(p)[k]) && Net(p[..a]) == 0
    ensures (a == 0 || !word(p[a - 1])) && (b == |p| || !word(p[b]))
  {
    hide Strip, Fragments, IsSpace, Net;
    var f := Fragments(p)[k];
    var start := FragmentPlace(p, k);
    var c, d := Stretch(f);
    a, b := start + c, start + d;
    SliceOfSlice(p, start, start + |f|, c, d);
    forall i | 0 <= i < c ensures IsSpace(f[..c][i]) {
    }
    NetOfSpaces(f[..c]);
    NetInside(p, start, start + |f|, c);
    assert c > 0 ==> p[a - 1] == f[c - 1];
    assert d < |f| ==> p[b] == f[d];
  }

  lemma EndsInLetter(s: string, i: nat, word: char -> bool)
    requires WordClass(word) && FromAt(s, i, word)
    ensures word(s[i + 3])
  {
    assert Lower(s[i..i + 4])[3] == 'm';
    assert s[i + 3] == 'm' || s[i + 3] == 'M';
  }

  /** A FROM word of a stretch is one of the whole text when no word runs on past the stretch. */
  lemma FromInside(s: string, a: nat, b: nat, j: nat, word: char -> bool)
    requires a <= b <= |s| && FromAt(s[a..b], j, word)
    requires (a == 0 || !word(s[a - 1])) && (b == |s| || !word(s[b]))
    ensures a + j < b && FromAt(s, a + j, word)
  {
    hide Lower;
    SliceOfSlice(s, a, b, j, j + 4);
    assert j > 0 ==> s[a..b][j - 1] == s[a + j - 1];
    assert j + 4 < b - a ==> s[a..b][j + 4] == s[a + j + 4];
  }

  /** In front of a FROM word no FROM word can end. */
  lemma FromInFront(s: string, end: nat, i: nat, word: char -> bool)
    requires WordClass(word) && end <= |s| && FromAt(s, end, word) && FromAt(s[..end], i, word)
    ensures FromAt(s, i, word)
  {
    hide Lower;
    EndsInLetter(s[..end], i, word);
    assert s[..end][i..i + 4] == s[i..i + 4];
    assert i > 0 ==> s[..end][i - 1] == s[i - 1];
    assert s[..end][i + 3] == s[i + 3];
    assert i + 4 < end ==> s[..end][i + 4] == s[i + 4];
  }

  /** A top-level FROM word of an item is one of the projection, and of the text it begins. */
  lemma FromOfItem(p: string, body: string, k: nat, j: nat, word: char -> bool) returns (i: nat)
    requires WordClass(word) && |p| <= |body| && body[..|p|] == p && FromAt(body, |p|, word)
    requires k < |Fragments(p)| && TopLevelFrom(Strip(Fragments(p)[k]), j, word)
    ensures i < |p| && TopLevelFrom(body, i, word)
  {
    hide Strip, Fragments, FromAt, Net, WordClass;
    var a, b := ItemPlace(p, k, word);
    i := a + j;
    FromInside(p, a, b, j, word);
    FromInFront(body, |p|, i, word);
    NetInside(p, a, b, j);
    assert body[..i] == p[..i];
  }

  /** No item of a projection holds a FROM word at its own depth zero: the two scans agree. */
  lemma NoFromInItems(p: string, sql: string, word: char -> bool, item: string, j: nat)
    requires WordClass(word) && IsProjection(p, sql, word) && item in Items(p)
    ensures !TopLevelFrom(item, j, word)
  {
    hide Strip, Fragments, Compact, BeginsWithSelect, FromAt, Net, WordClass;
    var k :| 0 <= k < |Fragments(p)| && item == Strip(Fragments(p)[k]);
    var body := Compact(sql)[6..];
    assert body[..|p|] == p;
    if TopLevelFrom(item, j, word) {
      var _ := FromOfItem(p, body, k, j, word);
    }
  }

  lemma {:induction false} OneFragment(s: string)
    requires NoTopLevelComma(s)
    ensures Fragments(s) == [s]
  {
    SplitUnique([s], s);
  }

  lemma TrimmedHasNoComma(s: string)
    requires NoTopLevelComma(s)
    ensures NoTopLevelComma(Strip(s))
  {
    hide Strip, IsSpace;
    var a, b := Stretch(s);
    forall i | 0 <= i < a ensures IsSpace(s[..a][i]) {
    }
    NetOfSpaces(s[..a]);
    forall i | 0 <= i < b - a && s[a..b][i] == ',' ensures Net(s[a..b][..i]) != 0 {
      NetInside(s, a, b, i);
    }
  }

  /** An item is balanced, holds no comma at its own depth zero, and splitting it again gives it back
      unless it is blank; a blank one comes from two commas with nothing between them. */
  lemma SplitAgain(p: string, item: string)
    requires item in Items(p)
    ensures NoTopLevelComma(item)
    ensures Items(item) == [item] <==> item != ""
    ensures item == "" ==> Items(item) == []
  {
    hide Strip;
    FragmentsSplit(p);
    var k :| 0 <= k < |Fragments(p)| && item == Strip(Fragments(p)[k]);
    TrimmedHasNoComma(Fragments(p)[k]);
    StripAgain(Fragments(p)[k]);
    OneFragment(item);
  }

  lemma NetOfTrimmed(s: string)
    ensures Net(Strip(s)) == Net(s)
  {
    hide Strip, IsSpace;
    var a, b := Stretch(s);
    forall i | 0 <= i < a ensures IsSpace(s[..a][i]) {
    }
    forall i | 0 <= i < |s| - b ensures IsSpace(s[b..][i]) {
    }
    NetOfSpaces(s[..a]);
    NetOfSpaces(s[b..]);
    assert s == s[..a] + (s[a..b] + s[b..]);
    NetOfTwo(s[..a], s[a..b] + s[b..]);
    NetOfTwo(s[a..b], s[b..]);
  }

  /** Every item of a projection opens as many parentheses as it closes. */
  lemma ItemsBalanced(p: string, sql: string, word: char -> bool, item: string)
    requires IsProjection(p, sql, word) && item in Items(p)
    ensures Net(item) == 0
  {
    hide Strip, Fragments, Compact, BeginsWithSelect, FromAt;
    FragmentsSplit(p);
    NetOfParts(Fragments(p));
    assert Compact(sql)[6..][..|p|] == p;
    var k :| 0 <= k < |Fragments(p)| && item == Strip(Fragments(p)[k]);
    NetOfTrimmed(Fragments(p)[k]);
  }

  /** A blank item can occur: the second scan drops a blank last fragment and keeps any other. */
  lemma BlankItem()
    ensures Items(",a") == ["", "a"] && Items("a,") == ["a"]
  {
    hide Fragments;
    assert Net("a") == 0 by { assert "a"[..0] == ""; }
    assert Net("") == 0;
    hide Net;
    TwoParts("", "a");
    TwoParts("a", "");
    assert "" + "," + "a" == ",a" && "a" + "," + "" == "a,";
    assert Strip("") == "" && Strip("a") == "a";
  }

  lemma TwoParts(a: string, b: string)
    requires ',' !in a && ',' !in b && Net(a) == 0
    ensures Fragments(a + "," + b) == [a, b]
  {
    assert Join([a], ",") == a && [a, b][..1] == [a];
    SplitUnique([a, b], a + "," + b);
  }

  // ---- what is found, in terms of the text itself ------------------------------------------

  ghost predicate Blank(s: string) {
    forall i | 0 <= i < |s| :: IsSpace(s[i])
  }

  /** The text is these words, with spaces between them and perhaps around them. */
  ghost predicate Separated(s: string, words: seq<string>)
    decreases |words|
  {
    if words == [] then Blank(s)
    else exists gap, rest :: InFront(s, gap, words[0], rest) && Separated(rest, words[1..])
  }

  ghost predicate InFront(s: string, gap: string, w: string, rest: string) {
    s == gap + w + rest && Blank(gap) && IsWord(w) && (rest == "" || IsSpace(rest[0]))
  }

  lemma {:induction false} WordsOfBlank(s: string)
    requires Blank(s)
    ensures Words(s) == []
  {
    if s == [] {
    } else {
      WordsOfBlank(s[1..]);
    }
  }

  lemma {:induction false} WordsBehindGap(gap: string, s: string)
    requires Blank(gap)
    ensures Words(gap + s) == Words(s)
  {
    if gap == [] {
      assert gap + s == s;
    } else {
      assert (gap + s)[1..] == gap[1..] + s;
      WordsBehindGap(gap[1..], s);
    }
  }

  lemma {:induction false} WordThenSpace(w: string, rest: string)
    requires IsWord(w) && (rest == "" || IsSpace(rest[0]))
    ensures Words(w + rest) == [w] + Words(rest)
  {
    var s := w + rest;
    if |w| == 1 {
      assert s[1..] == rest && [s[0]] == w;
    } else {
      assert s[1..] == w[1..] + rest;
      WordThenSpace(w[1..], rest);
      assert [s[0]] + w[1..] == w;
    }
  }

  lemma {:induction false} FirstWord(s: string) returns (gap: string, rest: string)
    ensures Words(s) == [] ==> Blank(s)
    ensures Words(s) != [] ==> InFront(s, gap, Words(s)[0], rest) && Words(rest) == Words(s)[1..]
  {
    gap, rest := "", "";
    if s == [] {
    } else if IsSpace(s[0]) {
      gap, rest := FirstWord(s[1..]);
      gap := [s[0]] + gap;
      assert s == [s[0]] + s[1..];
    } else if |s| == 1 || IsSpace(s[1]) {
      rest := s[1..];
      assert s == "" + [s[0]] + rest;
    } else {
      gap, rest := FirstWord(s[1..]);
      GapLeads(s[1..], gap, Words(s[1..])[0], rest);
      gap := "";
      assert s == [s[0]] + s[1..];
    }
  }

  lemma GapLeads(s: string, gap: string, w: string, rest: string)
    requires InFront(s, gap, w, rest)
    ensures s != "" && (IsSpace(s[0]) || (gap == "" && s == w + rest))
  {
    assert gap != "" ==> s[0] == gap[0];
  }

  /** Splitting at whitespace finds exactly the words of the text. */
  lemma WordsIff(s: string, words: seq<string>)
    ensures Words(s) == words <==> Separated(s, words)
  {
    hide IsWord, Blank;
    if Words(s) == words {
      WordsSeparate(s);
    }
    if Separated(s, words) {
      SeparatedAreWords(s, words);
    }
  }

  lemma {:induction false} WordsSeparate(s: string)
    ensures Separated(s, Words(s))
    decreases |Words(s)|
  {
    hide IsWord, Blank, Words;
    var gap, rest := FirstWord(s);
    if Words(s) != [] {
      hide InFront;
      WordsSeparate(rest);
    }
  }

  lemma {:induction false} SeparatedAreWords(s: string, words: seq<string>)
    requires Separated(s, words)
    ensures Words(s) == words
    decreases |words|
  {
    hide IsWord, Blank, Words;
    if words == [] {
      WordsOfBlank(s);
    } else {
      var gap, rest :| InFront(s, gap, words[0], rest) && Separated(rest, words[1..]);
      assert s == gap + (words[0] + rest);
      WordsBehindGap(gap, words[0] + rest);
      WordThenSpace(words[0], rest);
      SeparatedAreWords(rest, words[1..]);
    }
  }

  /** A FROM word is the four letters in either case, with no word character beside them. */
  lemma FromAtIff(s: string, i: nat, word: char -> bool)
    ensures FromAt(s, i, word)
            <==> exists before, name, after ::
                   && s == before + name + after && |before| == i && SameUpToCase(name, "from")
                   && (before == "" || !word(before[i - 1])) && (after == "" || !word(after[0]))
  {
    hide Lower, SameUpToCase;
    LowerOfFrom();
    if FromAt(s, i, word) {
      LowerIff(s[i..i + 4], "from");
      assert s == s[..i] + s[i..i + 4] + s[i + 4..];
    }
    if before, name, after :| s == before + name + after && |before| == i && SameUpToCase(name, "from")
                              && (before == "" || !word(before[i - 1])) && (after == "" || !word(after[0])) {
      LowerIff(name, "from");
      SameLength(name, "from");
      assert s[i..i + 4] == name;
      assert after != "" ==> s[i + 4] == after[0];
    }
  }

  lemma SameLength(s: string, t: string)
    ensures SameUpToCase(s, t) ==> |s| == |t|
  {
  }

  lemma LowerOfFrom()
    ensures Lower("from") == "from"
  {
  }

  /** A query begins with the six letters in either case, or with the long s, and a space. */
  lemma BeginsWithSelectIff(s: string)
    ensures BeginsWithSelect(s)
            <==> exists first, others, space, rest ::
                   && s == [first] + others + [space] + rest && first in "sS\U{17f}" && SameUpToCase(others, "elect")
                   && IsSpace(space)
  {
    hide IsSpace;
    assert Lower("elect") == "elect";
    if BeginsWithSelect(s) {
      LowerIff(s[1..6], "elect");
      assert Lower(s[..1])[0] == 's' ==> s[0] in "sS";
      assert s == [s[0]] + s[1..6] + [s[6]] + s[7..];
    }
    if first, others, space, rest :| s == [first] + others + [space] + rest && first in "sS\U{17f}"
                                     && SameUpToCase(others, "elect") && IsSpace(space) {
      LowerIff(others, "elect");
      assert s[..1] == [first] && s[1..6] == others && s[6] == space;
    }
  }
}
