/** tools/verify_rds_recovery_drill_preflight.py, check_query_is_aggregate_only: what a query must look like
    to be accepted, and what that says about each item of its projection. */
module QueryCheck {
  import opened SqlProjection
  import opened Text

  /** What the model leaves open about characters: the word class of regular expressions, and lower case. */
  datatype Characters = Characters(word: char -> bool, lower: string -> string)

  const WRITE_KEYWORDS := [
    "insert", "update", "delete", "drop", "alter", "create", "truncate", "grant", "revoke", "copy", "merge", "call",
    "vacuum", "reindex", "lock", "into"]

  const NON_CORE_FUNCTIONS := ["hmac", "digest", "crypt", "gen_random_bytes", "gen_salt", "pgp_sym_encrypt"]

  const AGGREGATE_FUNCTIONS := {"count", "min", "max", "sum", "avg", "bool_and", "bool_or", "md5"}

  // ---- the two patterns of an item ---------------------------------------------------------

  /** `[A-Za-z_]`, ignoring case: four letters outside ASCII are cases of i, s and k. */
  predicate IsNameStart(c: char) {
    'a' <= c <= 'z' || 'A' <= c <= 'Z' || c == '_' || c == '\U{130}' || c == '\U{131}' || c == '\U{17f}' || c == '\U{212a}'
  }

  predicate IsNamePart(c: char) {
    IsNameStart(c) || '0' <= c <= '9'
  }

  /** A name from a to b. */
  ghost predicate NameAt(s: string, a: nat, b: nat) {
    a < b <= |s| && IsNameStart(s[a]) && forall i | a <= i < b :: IsNamePart(s[i])
  }

  /** Nothing but spaces from a to b. */
  ghost predicate BlankAt(s: string, a: nat, b: nat) {
    a <= b <= |s| && forall i | a <= i < b :: IsSpace(s[i])
  }

  predicate IsAs(a: char, s: char) {
    (a == 'a' || a == 'A') && (s == 's' || s == 'S' || s == '\U{17f}')
  }

  /** `\bas\s+(name)$` matches from i, with the name from q. */
  ghost predicate AliasAt(item: string, i: nat, q: nat, word: char -> bool) {
    && i + 2 < q < |item|
    && IsAs(item[i], item[i + 1]) && (i == 0 || !word(item[i - 1]))
    && BlankAt(item, i + 2, q) && NameAt(item, q, |item|)
  }

  /** `^(name)\s*\(` matches, with the name up to n and the parenthesis at o. */
  ghost predicate OpensAt(item: string, n: nat, o: nat) {
    n <= o < |item| && NameAt(item, 0, n) && BlankAt(item, n, o) && item[o] == '('
  }

  /** Both patterns match, the alias is not forbidden and the function is an aggregate. */
  ghost predicate Passes(item: string, forbidden: set<string>, chars: Characters) {
    && (exists i: nat, q: nat :: AliasAt(item, i, q, chars.word) && chars.lower(item[q..]) !in forbidden)
    && (exists n: nat, o: nat :: OpensAt(item, n, o) && chars.lower(item[..n]) in AGGREGATE_FUNCTIONS)
  }

  // ---- finding the matches -----------------------------------------------------------------

  /** Where the longest run of name characters at the end begins. */
  function NameStart(s: string): (q: nat)
    ensures q <= |s|
  {
    if s != "" && IsNamePart(s[|s| - 1]) then NameStart(s[..|s| - 1]) else |s|
  }

  /** Where the longest run of name characters at the front ends. */
  function NameEnd(s: string): (n: nat)
    ensures n <= |s|
  {
    if s != "" && IsNamePart(s[0]) then 1 + NameEnd(s[1..]) else 0
  }

  /** The text up to where the spaces that end it begin. */
  function SpaceStart(s: string): (b: nat)
    ensures b <= |s|
  {
    if s != "" && IsSpace(s[|s| - 1]) then SpaceStart(s[..|s| - 1]) else |s|
  }

  function SpaceEnd(s: string): (a: nat)
    ensures a <= |s|
  {
    if s != "" && IsSpace(s[0]) then 1 + SpaceEnd(s[1..]) else 0
  }

  lemma {:induction false} NameStartIff(s: string, q: nat)
    requires q <= |s|
    ensures q == NameStart(s) <==> (forall i | q <= i < |s| :: IsNamePart(s[i])) && (q > 0 ==> !IsNamePart(s[q - 1]))
  {
    hide IsNamePart;
    if s != "" && IsNamePart(s[|s| - 1]) && q < |s| {
      NameStartIff(s[..|s| - 1], q);
    }
  }

  lemma {:induction false} NameEndIff(s: string, n: nat)
    requires n <= |s|
    ensures n == NameEnd(s) <==> (forall i | 0 <= i < n :: IsNamePart(s[i])) && (n < |s| ==> !IsNamePart(s[n]))
  {
    hide IsNamePart;
    if s != "" && IsNamePart(s[0]) && n > 0 {
      NameEndIff(s[1..], n - 1);
      assert forall i | 0 < i < |s| :: s[i] == s[1..][i - 1];
    }
  }

  lemma {:induction false} SpaceStartIff(s: string, b: nat)
    requires b <= |s|
    ensures b == SpaceStart(s) <==> BlankAt(s, b, |s|) && (b > 0 ==> !IsSpace(s[b - 1]))
  {
    hide IsSpace;
    if s != "" && IsSpace(s[|s| - 1]) && b < |s| {
      SpaceStartIff(s[..|s| - 1], b);
    }
  }

  lemma {:induction false} SpaceEndIff(s: string, a: nat)
    requires a <= |s|
    ensures a == SpaceEnd(s) <==> BlankAt(s, 0, a) && (a < |s| ==> !IsSpace(s[a]))
  {
    hide IsSpace;
    if s != "" && IsSpace(s[0]) && a > 0 {
      SpaceEndIff(s[1..], a - 1);
      assert forall i | 0 < i < |s| :: s[i] == s[1..][i - 1];
    }
  }

  /** Where the alias of an item begins, and where its AS does, if it has one. */
  function Alias(item: string, word: char -> bool): Option<(nat, nat)> {
    var q := NameStart(item);
    var b := SpaceStart(item[..q]);
    if q < |item| && IsNameStart(item[q]) && 2 <= b < q && IsAs(item[b - 2], item[b - 1]) && (b == 2 || !word(item[b - 3]))
    then Some((b - 2, q)) else None
  }

  /** Where the name of the function that an item begins with ends, and where its parenthesis is. */
  function Function(item: string): Option<(nat, nat)> {
    var n := NameEnd(item);
    var o := n + SpaceEnd(item[n..]);
    if n > 0 && IsNameStart(item[0]) && o < |item| && item[o] == '(' then Some((n, o)) else None
  }

  lemma NameHasNoSpace(c: char)
    ensures IsNamePart(c) ==> !IsSpace(c) && Turn(c) == 0
    ensures IsSpace(c) ==> Turn(c) == 0
  {
  }

  /** The alias pattern matches in one way at most. */
  lemma AliasIff(item: string, i: nat, q: nat, word: char -> bool)
    ensures AliasAt(item, i, q, word) <==> Alias(item, word) == Some((i, q))
  {
    hide IsNamePart, IsSpace;
    var start := NameStart(item);
    var b := SpaceStart(item[..start]);
    NameStartIff(item, start);
    SpaceStartIff(item[..start], b);
    if AliasAt(item, i, q, word) {
      assert IsSpace(item[q - 1]);
      NameHasNoSpace(item[q - 1]);
      NameStartIff(item, q);
      LettersAreNoSpaces(item[i], item[i + 1]);
      SpaceStartIff(item[..q], i + 2);
    }
  }

  lemma LettersAreNoSpaces(a: char, s: char)
    ensures IsAs(a, s) ==> !IsSpace(s) && Turn(a) == 0 && Turn(s) == 0
  {
  }

  /** The function pattern matches in one way at most. */
  lemma FunctionIff(item: string, n: nat, o: nat)
    ensures OpensAt(item, n, o) <==> Function(item) == Some((n, o))
  {
    hide IsNamePart, IsSpace, NameEnd, SpaceEnd;
    var end := NameEnd(item);
    NameEndIff(item, end);
    SpaceEndIff(item[end..], SpaceEnd(item[end..]));
    assert forall i | end <= i < |item| :: item[i] == item[end..][i - end];
    if OpensAt(item, n, o) {
      NameHasNoSpace(item[n]);
      assert !IsNamePart(item[n]) by { assert n == o || IsSpace(item[n]); OpeningIsNoName(); }
      NameEndIff(item, n);
      OpeningIsNoName();
      assert forall i | n <= i < |item| :: item[i] == item[n..][i - n];
      SpaceEndIff(item[n..], o - n);
    }
  }

  lemma OpeningIsNoName()
    ensures !IsNamePart('(') && !IsSpace('(')
  {
  }

  // ---- the check ---------------------------------------------------------------------------

  /** `\bword\b` at i */
  predicate WordAt(s: string, i: nat, keyword: string, word: char -> bool)
    requires i <= |s|
  {
    && StartsWith(s[i..], keyword)
    && (i == 0 || !word(s[i - 1])) && (i + |keyword| == |s| || !word(s[i + |keyword|]))
  }

  predicate HasWord(s: string, keyword: string, word: char -> bool) {
    exists i: nat | i <= |s| :: WordAt(s, i, keyword, word)
  }

  /** `\bname\s*\(` at i */
  predicate CallAt(s: string, i: nat, name: string, word: char -> bool)
    requires i <= |s|
  {
    && StartsWith(s[i..], name) && (i == 0 || !word(s[i - 1]))
    && var rest := s[i + |name|..]; SpaceEnd(rest) < |rest| && rest[SpaceEnd(rest)] == '('
  }

  predicate HasCall(s: string, name: string, word: char -> bool) {
    exists i: nat | i <= |s| :: CallAt(s, i, name, word)
  }

  datatype Verdict =
    | Accepted | Separator | NotReadOnly(keyword: string) | NotCore(name: string) | NoProjection(error: DrillError)
    | NotAliased(item: string) | ForbiddenColumn(alias: string) | NotAggregate(item: string)

  /** One statement, no keyword that writes, and no function that would need an extension. */
  ghost predicate ReadOnly(sql: string, chars: Characters) {
    var compact := Compact(sql);
    && ';' !in compact
    && (forall keyword | keyword in WRITE_KEYWORDS :: !HasWord(chars.lower(compact), keyword, chars.word))
    && (forall name | name in NON_CORE_FUNCTIONS :: !HasCall(chars.lower(compact), name, chars.word))
  }

  function Lowered(names: set<string>, chars: Characters): set<string> {
    set name | name in names :: chars.lower(name)
  }

  /** Read-only, with a projection all of whose items pass. */
  ghost predicate Accepts(sql: string, forbidden: set<string>, chars: Characters) {
    && ReadOnly(sql, chars)
    && exists p :: && IsProjection(p, sql, chars.word)
                   && forall item | item in Items(p) :: Passes(item, Lowered(forbidden, chars), chars)
  }

  /** The item of some projection of the query. */
  ghost predicate IsItem(item: string, sql: string, chars: Characters) {
    exists p :: IsProjection(p, sql, chars.word) && item in Items(p)
  }

  /** What the verdict says is so. */
  ghost predicate Justified(verdict: Verdict, sql: string, forbidden: set<string>, chars: Characters) {
    var compact := Compact(sql);
    match verdict
    case Accepted => true
    case Separator => ';' in compact
    case NotReadOnly(keyword) => keyword in WRITE_KEYWORDS && HasWord(chars.lower(compact), keyword, chars.word)
    case NotCore(name) => name in NON_CORE_FUNCTIONS && HasCall(chars.lower(compact), name, chars.word)
    case NoProjection(error) =>
      (forall p :: !IsProjection(p, sql, chars.word)) && (error == NotSelect <==> !BeginsWithSelect(compact))
    case NotAliased(item) => IsItem(item, sql, chars) && forall i: nat, q: nat :: !AliasAt(item, i, q, chars.word)
    case ForbiddenColumn(alias) =>
      && chars.lower(alias) in Lowered(forbidden, chars)
      && exists item, i: nat, q: nat :: IsItem(item, sql, chars) && AliasAt(item, i, q, chars.word) && alias == item[q..]
    case NotAggregate(item) =>
      && IsItem(item, sql, chars)
      && forall n: nat, o: nat | OpensAt(item, n, o) :: chars.lower(item[..n]) !in AGGREGATE_FUNCTIONS
  }

  lemma ProjectionUnique(p: string, q: string, sql: string, word: char -> bool)
    requires IsProjection(p, sql, word) && IsProjection(q, sql, word)
    ensures p == q
  {
    hide TopLevelFrom, Compact, BeginsWithSelect;
  }

  /** It makes no difference that the query is compacted twice. */
  lemma SameProjections(sql: string, word: char -> bool)
    ensures Compact(Compact(sql)) == Compact(sql)
    ensures forall p :: IsProjection(p, Compact(sql), word) <==> IsProjection(p, sql, word)
  {
    hide Compact, BeginsWithSelect, TopLevelFrom;
    CompactAgain(sql);
  }

  /** What is wrong with an item, if anything is. */
  method CheckItem(item: string, forbidden: set<string>, chars: Characters) returns (verdict: Verdict)
    ensures verdict.Accepted? <==> Passes(item, forbidden, chars)
    ensures verdict in {Accepted, NotAliased(item), NotAggregate(item)} || verdict.ForbiddenColumn?
    ensures verdict.NotAliased? ==> forall i: nat, q: nat :: !AliasAt(item, i, q, chars.word)
    ensures verdict.ForbiddenColumn? ==>
      && chars.lower(verdict.alias) in forbidden
      && exists i: nat, q: nat :: AliasAt(item, i, q, chars.word) && verdict.alias == item[q..]
    ensures verdict.NotAggregate? ==>
      forall n: nat, o: nat | OpensAt(item, n, o) :: chars.lower(item[..n]) !in AGGREGATE_FUNCTIONS
  {
    hide AliasAt, OpensAt, Alias, Function;
    forall i: nat, q: nat ensures AliasAt(item, i, q, chars.word) <==> Alias(item, chars.word) == Some((i, q)) {
      AliasIff(item, i, q, chars.word);
    }
    forall n: nat, o: nat ensures OpensAt(item, n, o) <==> Function(item) == Some((n, o)) {
      FunctionIff(item, n, o);
    }
    var alias := Alias(item, chars.word);
    if alias.None? { return NotAliased(item); }
    AliasInside(item, chars.word);
    var name := item[alias.value.1..];
    if chars.lower(name) in forbidden { return ForbiddenColumn(name); }
    var function' := Function(item);
    if function'.None? { return NotAggregate(item); }
    FunctionInside(item);
    if chars.lower(item[..function'.value.0]) !in AGGREGATE_FUNCTIONS { return NotAggregate(item); }
    return Accepted;
  }

  lemma AliasInside(item: string, word: char -> bool)
    ensures Alias(item, word).Some? ==> Alias(item, word).value.1 < |item|
  {
  }

  lemma FunctionInside(item: string)
    ensures Function(item).Some? ==> Function(item).value.0 <= |item|
  {
  }

  method CheckQuery(sql: string, forbidden: set<string>, chars: Characters) returns (verdict: Verdict)
    ensures verdict.Accepted? <==> Accepts(sql, forbidden, chars)
    ensures Justified(verdict, sql, forbidden, chars)
  {
    hide Compact, HasWord, HasCall, IsProjection, Passes, Items, AliasAt, OpensAt, BeginsWithSelect, Lowered;
    var compact := Compact(sql);
    var lowered := chars.lower(compact);
    if ';' in compact { return Separator; }
    for k := 0 to |WRITE_KEYWORDS|
      invariant forall keyword | keyword in WRITE_KEYWORDS[..k] :: !HasWord(lowered, keyword, chars.word)
    {
      if HasWord(lowered, WRITE_KEYWORDS[k], chars.word) { return NotReadOnly(WRITE_KEYWORDS[k]); }
    }
    for k := 0 to |NON_CORE_FUNCTIONS|
      invariant forall name | name in NON_CORE_FUNCTIONS[..k] :: !HasCall(lowered, name, chars.word)
    {
      if HasCall(lowered, NON_CORE_FUNCTIONS[k], chars.word) { return NotCore(NON_CORE_FUNCTIONS[k]); }
    }
    var items := TopLevelProjection(compact, chars.word);
    SameProjections(sql, chars.word);
    if items.Err? { return NoProjection(items.error); }
    ghost var p :| IsProjection(p, sql, chars.word) && items.value == Items(p);
    forall q | IsProjection(q, sql, chars.word) ensures q == p {
      ProjectionUnique(p, q, sql, chars.word);
    }
    for k := 0 to |items.value|
      invariant forall item | item in items.value[..k] :: Passes(item, Lowered(forbidden, chars), chars)
    {
      verdict := CheckItem(items.value[k], Lowered(forbidden, chars), chars);
      assert IsItem(items.value[k], sql, chars);
      if !verdict.Accepted? { return; }
    }
    return Accepted;
  }

  // ---- what acceptance says about an item --------------------------------------------------

  /** The parenthesis at c closes the one at o: from o on, it is the first to leave nothing open. */
  ghost predicate Encloses(s: string, o: nat, c: nat) {
    && o < c < |s| && s[o] == '(' && s[c] == ')'
    && Net(s[o..c + 1]) == 0 && forall k | o < k <= c :: Net(s[o..k]) >= 1
  }

  /** The item is an aggregate function, its arguments in parentheses, and an alias: nothing else. */
  ghost predicate OneCall(item: string, chars: Characters) {
    exists n: nat, o: nat, c: nat, i: nat, q: nat ::
      && OpensAt(item, n, o) && chars.lower(item[..n]) in AGGREGATE_FUNCTIONS
      && Encloses(item, o, c) && BlankAt(item, c + 1, i) && AliasAt(item, i, q, chars.word)
  }

  /** What stands before the alias ends in a parenthesis, and is not balanced any earlier. */
  predicate ClosesLast(item: string, word: char -> bool) {
    Alias(item, word).Some?
    && (AliasInside(item, word); AliasFits(item, word);
        var call := item[..SpaceStart(item[..Alias(item, word).value.0])];
        EndsWith(call, ")") && forall k | 0 <= k < |call| && '(' in call[..k] :: Net(call[..k]) >= 1)
  }

  lemma AliasFits(item: string, word: char -> bool)
    ensures Alias(item, word).Some? ==> Alias(item, word).value.0 < |item|
  {
  }

  lemma {:induction false} NetOfPlain(s: string)
    requires forall k | 0 <= k < |s| :: Turn(s[k]) == 0
    ensures Net(s) == 0
  {
    if s == [] {
    } else {
      NetOfPlain(s[..|s| - 1]);
    }
  }

  /** The depth at k, counted from a place where nothing was open. */
  lemma NetFrom(s: string, o: nat, k: nat)
    requires o <= k <= |s| && Net(s[..o]) == 0
    ensures Net(s[..k]) == Net(s[o..k])
  {
    NetInside(s, o, k, k - o);
    assert s[o..k][..k - o] == s[o..k];
  }

  /** The alias and what announces it hold no parenthesis. */
  lemma AliasIsPlain(item: string, i: nat, q: nat, word: char -> bool)
    requires AliasAt(item, i, q, word)
    ensures forall k | i <= k < |item| :: Turn(item[k]) == 0
  {
    hide IsNamePart, IsSpace;
    LettersAreNoSpaces(item[i], item[i + 1]);
    forall k | i <= k < |item| ensures Turn(item[k]) == 0 {
      NameHasNoSpace(item[k]);
    }
  }

  lemma FunctionIsPlain(item: string, n: nat, o: nat)
    requires OpensAt(item, n, o)
    ensures Net(item[..o]) == 0 && '(' !in item[..o]
  {
    hide IsNamePart, IsSpace;
    forall k | 0 <= k < o ensures Turn(item[k]) == 0 {
      NameHasNoSpace(item[k]);
    }
    NetOfPlain(item[..o]);
  }

  /** In a balanced item, what stands before the alias is balanced, with or without the spaces at its end,
      and the parenthesis of the function is in it. */
  lemma CallIsBalanced(item: string, n: nat, o: nat, i: nat, q: nat, word: char -> bool)
    requires OpensAt(item, n, o) && AliasAt(item, i, q, word) && Net(item) == 0
    ensures var b := SpaceStart(item[..i]); o < b <= i && BlankAt(item, b, i) && Net(item[..b]) == 0
  {
    hide IsNamePart, IsSpace;
    var b := SpaceStart(item[..i]);
    AliasIsPlain(item, i, q, word);
    SpaceStartIff(item[..i], b);
    OpeningIsNoName();
    assert forall k | b <= k < i :: item[..i][k] == item[k];
    forall k | b <= k < |item| ensures Turn(item[k]) == 0 {
      NameHasNoSpace(item[k]);
    }
    assert Turn(item[o]) == 1;
    NetOfPlain(item[b..]);
    assert item == item[..b] + item[b..];
    NetOfTwo(item[..b], item[b..]);
  }

  lemma ClosedEndsCall(item: string, o: nat, c: nat, i: nat)
    requires Encloses(item, o, c) && BlankAt(item, c + 1, i)
    ensures SpaceStart(item[..i]) == c + 1
  {
    SpaceStartIff(item[..i], c + 1);
  }

  lemma OpenedBefore(s: string, o: nat, k: nat)
    requires o <= |s| && k <= |s| && '(' !in s[..o] && '(' in s[..k]
    ensures o < k
  {
  }

  lemma EnclosedStaysOpen(item: string, o: nat, c: nat)
    requires Encloses(item, o, c) && Net(item[..o]) == 0 && '(' !in item[..o]
    ensures var call := item[..c + 1];
            EndsWith(call, ")") && forall k | 0 <= k < |call| && '(' in call[..k] :: Net(call[..k]) >= 1
  {
    hide Net;
    var call := item[..c + 1];
    forall k | 0 <= k < |call| && '(' in call[..k] ensures Net(call[..k]) >= 1 {
      assert call[..k] == item[..k];
      OpenedBefore(item, o, k);
      NetFrom(item, o, k);
    }
  }

  lemma OpenIsEnclosed(item: string, n: nat, o: nat, b: nat)
    requires OpensAt(item, n, o) && o < b <= |item| && Net(item[..b]) == 0 && Net(item[..o]) == 0
    requires var call := item[..b];
             EndsWith(call, ")") && forall k | 0 <= k < |call| && '(' in call[..k] :: Net(call[..k]) >= 1
    ensures Encloses(item, o, b - 1)
  {
    hide Net;
    var call := item[..b];
    assert call[|call| - 1..][0] == ')';
    NetFrom(item, o, b);
    forall k | o < k <= b - 1 ensures Net(item[o..k]) >= 1 {
      assert call[..k] == item[..k] && call[..k][o] == '(';
      NetFrom(item, o, k);
    }
  }

  lemma OneCallClosesLast(item: string, chars: Characters)
    requires OneCall(item, chars)
    ensures ClosesLast(item, chars.word)
  {
    hide NameAt, BlankAt, Alias, Function, Net, Encloses;
    var n: nat, o: nat, c: nat, i: nat, q: nat :|
      && OpensAt(item, n, o) && chars.lower(item[..n]) in AGGREGATE_FUNCTIONS
      && Encloses(item, o, c) && BlankAt(item, c + 1, i) && AliasAt(item, i, q, chars.word);
    AliasIff(item, i, q, chars.word);
    FunctionIsPlain(item, n, o);
    ClosedEndsCall(item, o, c, i);
    EnclosedStaysOpen(item, o, c);
  }

  lemma ClosesLastIsOneCall(item: string, n: nat, o: nat, i: nat, q: nat, chars: Characters)
    requires OpensAt(item, n, o) && chars.lower(item[..n]) in AGGREGATE_FUNCTIONS
    requires AliasAt(item, i, q, chars.word) && Net(item) == 0
    requires ClosesLast(item, chars.word)
    ensures OneCall(item, chars)
  {
    hide NameAt, BlankAt, Alias, Function, Net, Encloses;
    AliasIff(item, i, q, chars.word);
    FunctionIsPlain(item, n, o);
    CallIsBalanced(item, n, o, i, q, chars.word);
    OpenIsEnclosed(item, n, o, SpaceStart(item[..i]));
  }

  /** Exactly when an item that passes is one aggregate call: nothing follows the parenthesis that closes
      the first one, except the alias. The code does not ask for it. */
  lemma OneCallIff(item: string, forbidden: set<string>, chars: Characters)
    requires Passes(item, forbidden, chars) && Net(item) == 0
    ensures OneCall(item, chars) <==> ClosesLast(item, chars.word)
  {
    hide OneCall, ClosesLast, NameAt, BlankAt, Net;
    var i: nat, q: nat :| AliasAt(item, i, q, chars.word) && chars.lower(item[q..]) !in forbidden;
    var n: nat, o: nat :| OpensAt(item, n, o) && chars.lower(item[..n]) in AGGREGATE_FUNCTIONS;
    if OneCall(item, chars) {
      OneCallClosesLast(item, chars);
    }
    if ClosesLast(item, chars.word) {
      ClosesLastIsOneCall(item, n, o, i, q, chars);
    }
  }

  /** What the acceptance of a query guarantees about every item of its projection: it begins with an
      aggregate call and ends in an alias that is not forbidden, opens as many parentheses as it closes, has
      no comma and no FROM outside them, and is that one call exactly when nothing follows the call. */
  lemma AcceptedItems(sql: string, forbidden: set<string>, chars: Characters, item: string, j: nat)
    requires WordClass(chars.word) && Accepts(sql, forbidden, chars) && IsItem(item, sql, chars)
    ensures Passes(item, Lowered(forbidden, chars), chars)
    ensures Net(item) == 0 && NoTopLevelComma(item) && !TopLevelFrom(item, j, chars.word)
    ensures OneCall(item, chars) <==> ClosesLast(item, chars.word)
  {
    hide Passes, IsProjection, Items, OneCall, ClosesLast, WordClass, TopLevelFrom, NoTopLevelComma, ReadOnly, Lowered, Net;
    var p :| && IsProjection(p, sql, chars.word)
             && forall item | item in Items(p) :: Passes(item, Lowered(forbidden, chars), chars);
    var p' :| IsProjection(p', sql, chars.word) && item in Items(p');
    ProjectionUnique(p, p', sql, chars.word);
    ItemsBalanced(p, sql, chars.word, item);
    SplitAgain(p, item);
    NoFromInItems(p, sql, chars.word, item, j);
    OneCallIff(item, Lowered(forbidden, chars), chars);
  }

  // ---- the patterns, in terms of the text itself -------------------------------------------

  /** The keyword between these two texts, with no word character beside it. */
  ghost predicate Between(s: string, before: string, keyword: string, after: string, word: char -> bool) {
    && s == before + keyword + after
    && (before == "" || !word(before[|before| - 1])) && (after == "" || !word(after[0]))
  }

  lemma HasWordIff(s: string, keyword: string, word: char -> bool)
    ensures HasWord(s, keyword, word) <==> exists before, after :: Between(s, before, keyword, after, word)
  {
    hide WordAt, Between;
    if HasWord(s, keyword, word) {
      var i: nat :| i <= |s| && WordAt(s, i, keyword, word);
      WordIsBetween(s, i, keyword, word);
    }
    if before, after :| Between(s, before, keyword, after, word) {
      BetweenIsWord(s, before, keyword, after, word);
    }
  }

  lemma WordIsBetween(s: string, i: nat, keyword: string, word: char -> bool)
    requires i <= |s| && WordAt(s, i, keyword, word)
    ensures i + |keyword| <= |s| && Between(s, s[..i], keyword, s[i + |keyword|..], word)
  {
    assert s == s[..i] + keyword + s[i + |keyword|..];
  }

  lemma BetweenIsWord(s: string, before: string, keyword: string, after: string, word: char -> bool)
    requires Between(s, before, keyword, after, word)
    ensures |before| <= |s| && WordAt(s, |before|, keyword, word)
  {
    assert s[|before|..] == keyword + after;
  }

  /** Spaces, if any, and a parenthesis. */
  ghost predicate OpensAfter(s: string, gap: string, after: string) {
    s == gap + "(" + after && Blank(gap)
  }

  ghost predicate Opens(s: string) {
    exists gap, after :: OpensAfter(s, gap, after)
  }

  lemma OpensIff(s: string)
    ensures Opens(s) <==> SpaceEnd(s) < |s| && s[SpaceEnd(s)] == '('
  {
    hide IsSpace, OpensAfter;
    var o := SpaceEnd(s);
    if o < |s| && s[o] == '(' {
      GapOfOpen(s, o);
    }
    if gap, after :| OpensAfter(s, gap, after) {
      OpenBehindGap(s, gap, after);
    }
  }

  lemma GapOfOpen(s: string, o: nat)
    requires o == SpaceEnd(s) < |s| && s[o] == '('
    ensures OpensAfter(s, s[..o], s[o + 1..])
  {
    hide IsSpace, SpaceEnd;
    SpaceEndIff(s, o);
    BlankIff(s, 0, o);
    hide Blank, BlankAt;
    assert s[0..o] == s[..o] && s[o..o + 1] == "(";
    FourSlices(s, 0, o, o + 1);
    assert s[..0] + s[0..o] == s[..o];
  }

  lemma OpenBehindGap(s: string, gap: string, after: string)
    requires OpensAfter(s, gap, after)
    ensures SpaceEnd(s) == |gap| < |s| && s[|gap|] == '('
  {
    hide IsSpace, SpaceEnd;
    OpeningIsNoName();
    SpaceEndIff(s, |gap|);
  }

  /** The name between these two texts, with no word character in front of it and a parenthesis behind it. */
  ghost predicate Called(s: string, before: string, name: string, rest: string, word: char -> bool) {
    s == before + name + rest && (before == "" || !word(before[|before| - 1])) && Opens(rest)
  }

  lemma HasCallIff(s: string, name: string, word: char -> bool)
    ensures HasCall(s, name, word) <==> exists before, rest :: Called(s, before, name, rest, word)
  {
    hide Opens;
    if HasCall(s, name, word) {
      var i: nat :| i <= |s| && CallAt(s, i, name, word);
      var rest := s[i + |name|..];
      OpensIff(rest);
      assert s == s[..i] + name + rest;
      assert Called(s, s[..i], name, rest, word);
    }
    if before, rest :| Called(s, before, name, rest, word) {
      OpensIff(rest);
      assert s[|before|..] == name + rest && s[|before| + |name|..] == rest;
      assert CallAt(s, |before|, name, word);
    }
  }

  lemma FourParts(s: string, a: string, b: string, c: string, d: string)
    requires s == a + b + c + d
    ensures s[..|a|] == a && s[|a|..|a| + |b|] == b && s[|a| + |b|..|a| + |b| + |c|] == c && s[|a| + |b| + |c|..] == d
  {
  }

  lemma FourSlices(s: string, i: nat, j: nat, k: nat)
    requires i <= j <= k <= |s|
    ensures s == s[..i] + s[i..j] + s[j..k] + s[k..]
  {
  }

  ghost predicate IsName(s: string) {
    && s != "" && s[0] !in "0123456789"
    && forall c | c in s :: 'a' <= c <= 'z' || 'A' <= c <= 'Z' || '0' <= c <= '9' || c in "_\U{130}\U{131}\U{17f}\U{212a}"
  }

  /** The item ends in AS, spaces and this name. */
  ghost predicate AliasParts(item: string, before: string, a: char, s: char, gap: string, alias: string, word: char -> bool) {
    && item == before + [a, s] + gap + alias
    && (before == "" || !word(before[|before| - 1])) && a in "aA" && s in "sS\U{17f}"
    && gap != "" && Blank(gap) && IsName(alias)
  }

  ghost predicate EndsInAlias(item: string, alias: string, word: char -> bool) {
    exists before, a, s, gap :: AliasParts(item, before, a, s, gap, alias, word)
  }

  /** The item begins with this name and a parenthesis. */
  ghost predicate BeginsWithCall(item: string, name: string) {
    exists gap, rest :: item == name + gap + "(" + rest && Blank(gap) && IsName(name)
  }

  lemma NameIff(s: string, a: nat, b: nat)
    requires a <= b <= |s|
    ensures NameAt(s, a, b) <==> IsName(s[a..b])
  {
    if NameAt(s, a, b) {
      assert s[a..b][0] == s[a];
    }
    if IsName(s[a..b]) {
      assert s[a..b][0] == s[a];
      forall i | a <= i < b ensures IsNamePart(s[i]) {
        assert s[i] == s[a..b][i - a] && s[a..b][i - a] in s[a..b];
      }
    }
  }

  lemma BlankIff(s: string, a: nat, b: nat)
    requires a <= b <= |s|
    ensures BlankAt(s, a, b) <==> Blank(s[a..b])
  {
    if Blank(s[a..b]) {
      forall i | a <= i < b ensures IsSpace(s[i]) {
        assert s[i] == s[a..b][i - a];
      }
    }
  }

  /** What the alias pattern captures. */
  lemma CapturesAlias(item: string, alias: string, word: char -> bool)
    ensures EndsInAlias(item, alias, word) <==> exists i: nat, q: nat :: AliasAt(item, i, q, word) && alias == item[q..]
  {
    hide AliasParts, NameAt, BlankAt, IsAs;
    if i: nat, q: nat :| AliasAt(item, i, q, word) && alias == item[q..] {
      PartsOfAlias(item, i, q, word);
    }
    if before, a, s, gap :| AliasParts(item, before, a, s, gap, alias, word) {
      AliasFromParts(item, before, a, s, gap, alias, word);
    }
  }

  lemma PartsOfAlias(item: string, i: nat, q: nat, word: char -> bool)
    requires AliasAt(item, i, q, word)
    ensures AliasParts(item, item[..i], item[i], item[i + 1], item[i + 2..q], item[q..], word)
  {
    hide BlankAt, NameAt, IsName, Blank;
    BlankIff(item, i + 2, q);
    NameIff(item, q, |item|);
    FourSlices(item, i, i + 2, q);
    assert item[i..i + 2] == [item[i], item[i + 1]] && item[q..|item|] == item[q..];
  }

  lemma AliasFromParts(item: string, before: string, a: char, s: char, gap: string, alias: string, word: char -> bool)
    requires AliasParts(item, before, a, s, gap, alias, word)
    ensures AliasAt(item, |before|, |before| + 2 + |gap|, word) && alias == item[|before| + 2 + |gap|..]
  {
    hide BlankAt, NameAt, IsName, Blank;
    var i, q := |before|, |before| + 2 + |gap|;
    NameNotEmpty(alias);
    FourParts(item, before, [a, s], gap, alias);
    assert item[i..i + 2][0] == a && item[i..i + 2][1] == s;
    assert before != "" ==> item[..i][i - 1] == item[i - 1];
    assert item[q..] == item[q..|item|];
    BlankIff(item, i + 2, q);
    NameIff(item, q, |item|);
  }

  lemma NameNotEmpty(s: string)
    ensures IsName(s) ==> s != ""
  {
  }

  /** What the function pattern captures. */
  lemma CapturesFunction(item: string, name: string)
    ensures BeginsWithCall(item, name) <==> exists n: nat, o: nat :: OpensAt(item, n, o) && name == item[..n]
  {
    hide BlankAt, NameAt, IsName, Blank;
    if n: nat, o: nat :| OpensAt(item, n, o) && name == item[..n] {
      BlankIff(item, n, o);
      NameIff(item, 0, n);
      assert item[0..n] == name;
      assert item == name + item[n..o] + "(" + item[o + 1..];
    }
    if gap, rest :| item == name + gap + "(" + rest && Blank(gap) && IsName(name) {
      var n, o := |name|, |name| + |gap|;
      assert item[0..n] == name && item[..n] == name && item[n..o] == gap;
      BlankIff(item, n, o);
      NameIff(item, 0, n);
      assert OpensAt(item, n, o);
    }
  }

  /** An item passes when it begins with a call of one of eight functions and ends in an alias that is not
      forbidden. */
  lemma PassesIff(item: string, forbidden: set<string>, chars: Characters)
    ensures Passes(item, forbidden, chars)
            <==> && (exists alias :: EndsInAlias(item, alias, chars.word) && chars.lower(alias) !in forbidden)
                 && (exists name :: && BeginsWithCall(item, name)
                                    && chars.lower(name) in ["count", "min", "max", "sum", "avg", "bool_and", "bool_or", "md5"])
  {
    hide NameAt, BlankAt, IsAs, EndsInAlias, BeginsWithCall;
    forall alias
      ensures EndsInAlias(item, alias, chars.word)
              <==> exists i: nat, q: nat :: AliasAt(item, i, q, chars.word) && alias == item[q..]
    {
      CapturesAlias(item, alias, chars.word);
    }
    forall name ensures BeginsWithCall(item, name) <==> exists n: nat, o: nat :: OpensAt(item, n, o) && name == item[..n] {
      CapturesFunction(item, name);
    }
  }

  /** The alias is one of these columns, whatever the case of either. */
  ghost predicate IsForbidden(alias: string, forbidden: set<string>, chars: Characters) {
    exists name :: name in forbidden && chars.lower(name) == chars.lower(alias)
  }

  /** The item begins with a call of one of eight functions and ends in an alias that is not forbidden. */
  ghost predicate Allowed(item: string, forbidden: set<string>, chars: Characters) {
    && (exists alias :: EndsInAlias(item, alias, chars.word) && !IsForbidden(alias, forbidden, chars))
    && (exists name :: && BeginsWithCall(item, name)
                       && chars.lower(name) in ["count", "min", "max", "sum", "avg", "bool_and", "bool_or", "md5"])
  }

  lemma AllowedIff(item: string, forbidden: set<string>, chars: Characters)
    ensures Passes(item, Lowered(forbidden, chars), chars) <==> Allowed(item, forbidden, chars)
  {
    hide EndsInAlias, BeginsWithCall, Passes;
    PassesIff(item, Lowered(forbidden, chars), chars);
  }

  /** A query is accepted exactly when it is read-only and has a projection all of whose items are allowed. */
  lemma AcceptsIff(sql: string, forbidden: set<string>, chars: Characters)
    ensures Accepts(sql, forbidden, chars)
            <==> && ReadOnly(sql, chars)
                 && exists p :: IsProjection(p, sql, chars.word) && forall item | item in Items(p) :: Allowed(item, forbidden, chars)
  {
    hide ReadOnly, IsProjection, Items, Passes, Lowered, Allowed;
    forall item ensures Passes(item, Lowered(forbidden, chars), chars) <==> Allowed(item, forbidden, chars) {
      AllowedIff(item, forbidden, chars);
    }
  }

  /** A name at the end of an item is its alias, and there is only one. */
  lemma OneAlias(item: string, a: string, b: string, word: char -> bool)
    requires EndsInAlias(item, a, word) && EndsInAlias(item, b, word)
    ensures a == b
  {
    hide EndsInAlias, NameAt, BlankAt, IsAs, Alias;
    CapturesAlias(item, a, word);
    CapturesAlias(item, b, word);
    var i: nat, q: nat :| AliasAt(item, i, q, word) && a == item[q..];
    var j: nat, r: nat :| AliasAt(item, j, r, word) && b == item[r..];
    AliasIff(item, i, q, word);
    AliasIff(item, j, r, word);
  }

  /** No item of an accepted query shows a forbidden column under its name. */
  lemma AcceptedHidesColumns(sql: string, forbidden: set<string>, chars: Characters, item: string, alias: string)
    requires WordClass(chars.word) && Accepts(sql, forbidden, chars) && IsItem(item, sql, chars)
    requires EndsInAlias(item, alias, chars.word)
    ensures !IsForbidden(alias, forbidden, chars)
  {
    hide Accepts, IsItem, EndsInAlias, BeginsWithCall, IsForbidden, Passes, WordClass;
    AcceptedItems(sql, forbidden, chars, item, 0);
    AllowedIff(item, forbidden, chars);
    var shown :| EndsInAlias(item, shown, chars.word) && !IsForbidden(shown, forbidden, chars);
    OneAlias(item, alias, shown, chars.word);
  }

  /** An accepted query is one statement, without any of sixteen keywords and six functions. */
  lemma AcceptedIsReadOnly(sql: string, forbidden: set<string>, chars: Characters, keyword: string, name: string)
    requires Accepts(sql, forbidden, chars)
    requires keyword in ["call", "merge", "copy", "revoke", "grant", "truncate", "create", "alter", "drop", "delete", "update",
                         "insert", "into", "lock", "reindex", "vacuum"]
    requires name in ["hmac", "digest", "crypt", "gen_random_bytes", "gen_salt", "pgp_sym_encrypt"]
    ensures var s := Compact(sql);
            ';' !in s && !HasWord(chars.lower(s), keyword, chars.word) && !HasCall(chars.lower(s), name, chars.word)
  {
    hide HasWord, HasCall, IsProjection, Passes, Items, Compact, Lowered;
  }

  // ---- an accepted query that shows more than an aggregate ---------------------------------

  const ITEM := "min(id)||key as n"
  const PROJECTION := " " + ITEM + " "
  const QUERY := "select" + PROJECTION + "from t"
  const QUERY_WORDS := ["select", "min(id)||key", "as", "n", "from", "t"]

  lemma QueryIsCompact()
    ensures Compact(QUERY) == QUERY
  {
    hide Words, Join;
    WordsOfJoined(QUERY_WORDS);
    QueryText();
  }

  lemma QueryText()
    ensures Join(QUERY_WORDS, " ") == QUERY
  {
    var w := QUERY_WORDS;
    ItemText();
    assert w[..5][..4] == w[..4];
    assert Join(w[..5], " ") == "select min(id)||key as n from";
  }

  lemma ItemText()
    ensures Join(QUERY_WORDS[..4], " ") == "select min(id)||key as n"
  {
    var w := QUERY_WORDS;
    assert w[..4][..3] == w[..3] && w[..3][..2] == w[..2] && w[..2][..1] == w[..1];
    assert Join(w[..1], " ") == "select";
    assert Join(w[..2], " ") == "select min(id)||key";
    assert Join(w[..3], " ") == "select min(id)||key as";
  }

  /** No three characters in a row of s are those that the keyword begins with. */
  predicate Absent(s: string, keyword: string) {
    && |keyword| >= 3
    && forall i | 0 <= i < |s| - 2 :: !(s[i] == keyword[0] && s[i + 1] == keyword[1] && s[i + 2] == keyword[2])
  }

  lemma AbsentIsNoWord(s: string, keyword: string, word: char -> bool)
    requires Absent(s, keyword)
    ensures !HasWord(s, keyword, word) && !HasCall(s, keyword, word)
  {
    forall i: nat | i <= |s| ensures !StartsWith(s[i..], keyword) {
      if |keyword| <= |s[i..]| {
        assert s[i..][..|keyword|][0] == s[i] && s[i..][..|keyword|][1] == s[i + 1] && s[i..][..|keyword|][2] == s[i + 2];
      }
    }
  }

  lemma QueryIsReadOnly(word: char -> bool)
    ensures ReadOnly(QUERY, Characters(word, Lower))
  {
    hide HasWord, HasCall, Compact, Absent;
    QueryIsCompact();
    QueryLetters();
    KeywordsAbsent();
    FunctionsAbsent();
    assert Lower(QUERY) == QUERY;
    forall keyword | keyword in WRITE_KEYWORDS ensures !HasWord(QUERY, keyword, word) {
      AbsentIsNoWord(QUERY, keyword, word);
    }
    forall name | name in NON_CORE_FUNCTIONS ensures !HasCall(QUERY, name, word) {
      AbsentIsNoWord(QUERY, name, word);
    }
  }

  lemma QueryLetters()
    ensures ';' !in QUERY && forall c | c in QUERY :: !('A' <= c <= 'Z')
  {
  }

  lemma KeywordsAbsent()
    ensures forall keyword | keyword in WRITE_KEYWORDS :: Absent(QUERY, keyword)
  {
    hide Absent;
    FirstKeywordsAbsent();
    MiddleKeywordsAbsent();
    LastKeywordsAbsent();
  }

  lemma FirstKeywordsAbsent()
    ensures forall k | 0 <= k < 6 :: Absent(QUERY, WRITE_KEYWORDS[k])
  {
  }

  lemma MiddleKeywordsAbsent()
    ensures forall k | 6 <= k < 11 :: Absent(QUERY, WRITE_KEYWORDS[k])
  {
  }

  lemma LastKeywordsAbsent()
    ensures forall k | 11 <= k < |WRITE_KEYWORDS| :: Absent(QUERY, WRITE_KEYWORDS[k])
  {
  }

  lemma FunctionsAbsent()
    ensures forall name | name in NON_CORE_FUNCTIONS :: Absent(QUERY, name)
  {
  }

  lemma QueryBegins()
    ensures BeginsWithSelect(QUERY) && QUERY[6..] == PROJECTION + "from t"
  {
    assert QUERY[..1] == "s" && QUERY[1..6] == "elect";
    assert Lower("s") == "s" && Lower("elect") == "elect";
  }

  lemma FromAfter(p: string, name: string, word: char -> bool)
    requires WordClass(word) && p != "" && IsSpace(p[|p| - 1]) && Net(p) == 0 && SameUpToCase(name, "from")
    requires forall i | 0 <= i < |p| :: p[i] != 'f' && p[i] != 'F'
    ensures var body := p + (name + " t");
            TopLevelFrom(body, |p|, word) && forall i | 0 <= i < |p| :: !TopLevelFrom(body, i, word)
  {
    hide Net, Lower, SameUpToCase;
    var body := p + (name + " t");
    SameLength(name, "from");
    LowerIff(name, "from");
    LowerOfFrom();
    assert body[|p|..|p| + 4] == name && body[..|p|] == p && body[|p| + 4] == ' ' && body[|p| - 1] == p[|p| - 1];
    forall i | 0 <= i < |p| ensures !TopLevelFrom(body, i, word) {
      FromBeginsWithF(body, i, word);
      assert body[i] == p[i];
    }
  }

  lemma FromBeginsWithF(s: string, i: nat, word: char -> bool)
    ensures FromAt(s, i, word) ==> s[i] == 'f' || s[i] == 'F'
  {
    assert FromAt(s, i, word) ==> Lower(s[i..i + 4])[0] == 'f';
  }

  lemma QueryProjection(word: char -> bool)
    requires WordClass(word)
    ensures IsProjection(PROJECTION, QUERY, word) && Items(PROJECTION) == [ITEM]
  {
    hide Compact, BeginsWithSelect, TopLevelFrom, Net, Items, IsSpace;
    QueryIsCompact();
    QueryBegins();
    PlainProjection();
    EndsInSpace();
    FromAfter(PROJECTION, "from", word);
    assert "from" + " t" == "from t";
    assert QUERY[6..6 + |PROJECTION|] == PROJECTION;
  }

  lemma EndsInSpace()
    ensures IsSpace(PROJECTION[|PROJECTION| - 1])
  {
  }

  lemma PlainProjection()
    ensures Net(PROJECTION) == 0 && Items(PROJECTION) == [ITEM]
    ensures forall i | 0 <= i < |PROJECTION| :: PROJECTION[i] != 'f' && PROJECTION[i] != 'F'
  {
    ProjectionNet();
    ProjectionLetters();
    assert NoTopLevelComma(PROJECTION);
    ProjectionStrip();
    assert ITEM != "";
    hide Net, NoTopLevelComma, Strip, Fragments;
    OneFragment(PROJECTION);
  }

  lemma ProjectionLetters()
    ensures forall i | 0 <= i < |PROJECTION| :: PROJECTION[i] != 'f' && PROJECTION[i] != 'F' && PROJECTION[i] != ','
  {
  }

  lemma ProjectionNet()
    ensures Net(PROJECTION) == 0 && Net(ITEM) == 0
  {
    hide Net;
    NetOfPlain(" min");
    NetOfPlain("id");
    NetOfPlain("||key as n ");
    NetOfOne('(');
    NetOfOne(')');
    assert PROJECTION == " min" + ("(" + ("id" + (")" + "||key as n ")));
    NetOfTwo(" min", "(" + ("id" + (")" + "||key as n ")));
    NetOfTwo("(", "id" + (")" + "||key as n "));
    NetOfTwo("id", ")" + "||key as n ");
    NetOfTwo(")", "||key as n ");
    ProjectionStrip();
    NetOfTrimmed(PROJECTION);
  }

  lemma NetOfOne(c: char)
    ensures Net([c]) == Turn(c)
  {
    assert [c][..0] == "" && Net("") == 0;
  }

  lemma ProjectionStrip()
    ensures Strip(PROJECTION) == ITEM
  {
    assert PROJECTION[1..] == ITEM + " " && !IsSpace((ITEM + " ")[0]);
    assert StripLeft(PROJECTION) == ITEM + " ";
    assert (ITEM + " ")[..|ITEM|] == ITEM && !IsSpace(ITEM[|ITEM| - 1]);
    assert StripRight(ITEM + " ") == StripRight(ITEM) == ITEM;
  }

  lemma ItemMatches(word: char -> bool)
    requires WordClass(word)
    ensures AliasAt(ITEM, 13, 16, word) && OpensAt(ITEM, 3, 3) && SpaceStart(ITEM[..13]) == 12
  {
    SpaceStartIff(ITEM[..13], 12);
  }

  lemma ItemNames()
    ensures ITEM[16..] == "n" && ITEM[..3] == "min"
    ensures Lower("n") == "n" && Lower("min") == "min" && Lower("key") == "key"
  {
  }

  lemma ItemPasses(word: char -> bool)
    requires WordClass(word)
    ensures Passes(ITEM, Lowered({"key"}, Characters(word, Lower)), Characters(word, Lower))
    ensures !OneCall(ITEM, Characters(word, Lower))
  {
    hide AliasAt, OpensAt, Alias, WordClass, Lower, OneCall, Net;
    ItemMatches(word);
    ItemNames();
    AliasIff(ITEM, 13, 16, word);
    assert "n"[0] != "key"[0];
    assert !EndsWith(ITEM[..12], ")") by {
      assert ITEM[..12][11] == 'y';
    }
    assert !ClosesLast(ITEM, word);
    hide ClosesLast;
    if OneCall(ITEM, Characters(word, Lower)) {
      OneCallClosesLast(ITEM, Characters(word, Lower));
    }
  }

  /** The check accepts a query that puts a forbidden column beside an aggregate. */
  lemma NotOnlyAggregates(word: char -> bool)
    requires WordClass(word)
    ensures var chars := Characters(word, Lower);
            Accepts(QUERY, {"key"}, chars) && IsItem(ITEM, QUERY, chars) && !OneCall(ITEM, chars)
  {
    hide Passes, IsProjection, ReadOnly, OneCall, Items;
    QueryIsReadOnly(word);
    QueryProjection(word);
    ItemPasses(word);
  }

  // ---- keywords in capital letters ---------------------------------------------------------

  const CAPITALS := "SELECT count(*) AS n FROM t"
  const COUNT := "count(*) AS n"
  const COUNT_WORDS := ["SELECT", "count(*)", "AS", "n", "FROM", "t"]

  lemma CapitalsAreCompact()
    ensures Compact(CAPITALS) == CAPITALS
  {
    var w := COUNT_WORDS;
    assert w[..5][..4] == w[..4] && w[..4][..3] == w[..3] && w[..3][..2] == w[..2] && w[..2][..1] == w[..1];
    assert Join(w[..1], " ") == "SELECT";
    assert Join(w[..2], " ") == "SELECT count(*)";
    assert Join(w[..3], " ") == "SELECT count(*) AS";
    assert Join(w[..4], " ") == "SELECT count(*) AS n";
    assert Join(w[..5], " ") == "SELECT count(*) AS n FROM";
    assert Join(w, " ") == CAPITALS;
    hide Words, Join;
    WordsOfJoined(w);
  }

  lemma CapitalsBegin()
    ensures BeginsWithSelect(CAPITALS) && CAPITALS[6..] == " count(*) AS n " + ("FROM" + " t")
  {
    assert CAPITALS == "S" + "ELECT" + (" count(*) AS n " + ("FROM" + " t"));
    assert CAPITALS[..1] == "S" && CAPITALS[1..6] == "ELECT" && CAPITALS[6] == ' ';
    assert Lower("S") == "s" && Lower("ELECT") == "elect";
  }

  lemma CountNet()
    ensures Net(" count(*) AS n ") == 0 && NoTopLevelComma(" count(*) AS n ")
  {
    hide Net;
    NetOfPlain(" count");
    NetOfPlain("*");
    NetOfPlain(" AS n ");
    NetOfOne('(');
    NetOfOne(')');
    assert " count(*) AS n " == " count" + ("(" + ("*" + (")" + " AS n ")));
    NetOfTwo(" count", "(" + ("*" + (")" + " AS n ")));
    NetOfTwo("(", "*" + (")" + " AS n "));
    NetOfTwo("*", ")" + " AS n ");
    NetOfTwo(")", " AS n ");
  }

  lemma CountStrip()
    ensures Strip(" count(*) AS n ") == COUNT
  {
    var s := " count(*) AS n ";
    assert s[1..] == COUNT + " " && !IsSpace((COUNT + " ")[0]);
    assert StripLeft(s) == COUNT + " ";
    assert (COUNT + " ")[..|COUNT|] == COUNT && !IsSpace(COUNT[|COUNT| - 1]);
    assert StripRight(COUNT + " ") == StripRight(COUNT) == COUNT;
  }

  lemma CountItems()
    ensures Items(" count(*) AS n ") == [COUNT]
  {
    CountNet();
    CountStrip();
    hide Strip, NoTopLevelComma, Net;
    OneFragment(" count(*) AS n ");
  }

  lemma CountFrom(word: char -> bool)
    requires WordClass(word)
    ensures var body := CAPITALS[6..];
            TopLevelFrom(body, 15, word) && forall i | 0 <= i < 15 :: !TopLevelFrom(body, i, word)
  {
    hide TopLevelFrom, BeginsWithSelect, WordClass, Net;
    var p := " count(*) AS n ";
    CountNet();
    CapitalsBegin();
    assert IsSpace(p[|p| - 1]) && SameUpToCase("FROM", "from") && |p| == 15;
    FromAfter(p, "FROM", word);
  }

  lemma CountPasses(chars: Characters)
    requires WordClass(chars.word) && chars.lower("n") == "n" && chars.lower("count") == "count"
    ensures Passes(COUNT, {"key"}, chars)
  {
    assert COUNT[12..] == "n" && COUNT[..5] == "count";
    assert AliasAt(COUNT, 9, 12, chars.word);
    assert OpensAt(COUNT, 5, 5);
  }

  /** The keywords of a query are found in capital letters too, and its item passes. */
  lemma CapitalsAreRead(chars: Characters)
    requires WordClass(chars.word) && chars.lower("n") == "n" && chars.lower("count") == "count"
    ensures IsProjection(" count(*) AS n ", "SELECT count(*) AS n FROM t", chars.word)
    ensures Items(" count(*) AS n ") == ["count(*) AS n"] && Passes("count(*) AS n", {"key"}, chars)
  {
    hide Compact, BeginsWithSelect, TopLevelFrom, Net, Items, Passes, WordClass;
    CapitalsAreCompact();
    CapitalsBegin();
    CountItems();
    CountFrom(chars.word);
    CountPasses(chars);
    assert CAPITALS[6..6 + 15] == " count(*) AS n ";
  }
}
