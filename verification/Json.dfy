/** The compact serialiser `json.dumps(value, sort_keys=True, separators=(",", ":"))` with its
    default ASCII escaping, and the proof that it loses nothing: two values with the same text
    are the same value. String escapes follow section 7 of RFC 8259. */
module Json {
  import opened Ordering
  import opened Text

  datatype Json =
    | Null
    | Bool(flag: bool)
    | Int(number: int)
    | Str(text: string)
    | Arr(items: seq<Json>)
    | Obj(fields: map<string, Json>)

  // ---- strings -----------------------------------------------------------------------------

  const QUOTE := "\""

  function HexDigit(d: nat): char
    requires d < 16
  {
    if d < 10 then ('0' as int + d) as char else ('a' as int + d - 10) as char
  }

  function Hex4(n: nat): string
    requires n < 0x1_0000
  {
    [HexDigit(n / 16 / 16 / 16), HexDigit(n / 16 / 16 % 16), HexDigit(n / 16 % 16), HexDigit(n % 16)]
  }

  function Escape(c: char): string {
    var n := c as int;
    if c == QUOTE[0] then "\\" + QUOTE
    else if c == '\\' then "\\\\"
    else if n == 10 then "\\n"
    else if n == 13 then "\\r"
    else if n == 9 then "\\t"
    else if n == 12 then "\\f"
    else if n == 8 then "\\b"
    else if 32 <= n <= 126 then [c]
    else if n < 0x1_0000 then "\\u" + Hex4(n)
    else "\\u" + Hex4(0xd800 + (n - 0x1_0000) / 0x400) + "\\u" + Hex4(0xdc00 + (n - 0x1_0000) % 0x400)
  }

  /** The escaped text of s, in front of `rest`. */
  function EscapeOn(s: string, rest: string): string {
    if s == [] then rest else Escape(s[0]) + EscapeOn(s[1..], rest)
  }

  function QuoteOn(s: string, rest: string): string {
    QUOTE + EscapeOn(s, QUOTE + rest)
  }

  // ---- numbers -----------------------------------------------------------------------------

  function Digit(d: nat): char
    requires d < 10
  {
    ('0' as int + d) as char
  }

  predicate IsDigit(c: char) { '0' <= c <= '9' }

  function NatText(n: nat): (s: string)
    ensures s != [] && forall c | c in s :: IsDigit(c)
  {
    if n < 10 then [Digit(n)] else NatText(n / 10) + [Digit(n % 10)]
  }

  function IntText(n: int): string {
    if n < 0 then "-" + NatText(-n) else NatText(n)
  }

  // ---- values ------------------------------------------------------------------------------

  function Dumps(j: Json): string {
    DumpsOn(j, "")
  }

  /** The text of j, in front of `rest`. */
  function DumpsOn(j: Json, rest: string): string
    decreases j, 1, 0
  {
    match j
    case Null => "null" + rest
    case Bool(b) => (if b then "true" else "false") + rest
    case Int(n) => IntText(n) + rest
    case Str(s) => QuoteOn(s, rest)
    case Arr(xs) => "[" + ItemsOn(xs, rest)
    case Obj(m) =>
      "{" + MembersOn(j, TextsInOrder(m.Keys), rest)
  }

  function ItemsOn(xs: seq<Json>, rest: string): string
    decreases xs, 0, 0
  {
    if xs == [] then "]" + rest
    else DumpsOn(xs[0], if |xs| == 1 then "]" + rest else "," + ItemsOn(xs[1..], rest))
  }

  function MembersOn(j: Json, keys: seq<string>, rest: string): string
    requires j.Obj? && forall k | k in keys :: k in j.fields
    decreases j, 0, |keys|
  {
    if keys == [] then "}" + rest
    else
      var more := if |keys| == 1 then "}" + rest else "," + MembersOn(j, keys[1..], rest);
      QuoteOn(keys[0], ":" + DumpsOn(j.fields[keys[0]], more))
  }

  // ---- the text determines the value -------------------------------------------------------

  /** What may follow a value inside a document. */
  ghost predicate Delimited(x: string) {
    x == "" || x[0] in {',', ']', '}'}
  }

  lemma SameTail(p: string, q: string, x: string, y: string)
    requires p + x == q + y && |p| == |q|
    ensures p == q && x == y
  {
    assert (p + x)[..|p|] == p && (q + y)[..|q|] == q;
    assert (p + x)[|p|..] == x && (q + y)[|q|..] == y;
  }

  lemma Hex4Injective(m: nat, n: nat)
    requires m < 0x1_0000 && n < 0x1_0000 && Hex4(m) == Hex4(n)
    ensures m == n
  {
  }

  /** The first unit of a \uXXXX escape; for a surrogate pair it lies outside the characters. */
  function FirstUnit(c: char): nat {
    var n := c as int;
    if n < 0x1_0000 then n else 0xd800 + (n - 0x1_0000) / 0x400
  }

  function SecondPart(c: char): string {
    var n := c as int;
    if n < 0x1_0000 then "" else "\\u" + Hex4(0xdc00 + (n - 0x1_0000) % 0x400)
  }

  lemma EscapeParts(c: char, x: string)
    requires |Escape(c)| >= 6
    ensures Escape(c) + x == "\\u" + (Hex4(FirstUnit(c)) + (SecondPart(c) + x))
  {
  }

  lemma UnitsDetermine(c: char, d: char)
    requires FirstUnit(c) == FirstUnit(d) && SecondPart(c) == SecondPart(d)
    ensures c == d
  {
    var m, n := c as int, d as int;
    if m >= 0x1_0000 {
      var m2, n2 := 0xdc00 + (m - 0x1_0000) % 0x400, 0xdc00 + (n - 0x1_0000) % 0x400;
      SameTail("\\u", "\\u", Hex4(m2), Hex4(n2));
      Hex4Injective(m2, n2);
    }
  }

  lemma SecondPartUnique(c: char, d: char, x: string, y: string)
    requires FirstUnit(c) == FirstUnit(d) && SecondPart(c) + x == SecondPart(d) + y
    ensures c == d && x == y
  {
    assert c as int < 0x1_0000 <==> d as int < 0x1_0000;
    SameTail(SecondPart(c), SecondPart(d), x, y);
    UnitsDetermine(c, d);
  }

  lemma EscapeUniqueUnit(c: char, d: char, x: string, y: string)
    requires Escape(c) + x == Escape(d) + y
    requires |Escape(c)| >= 6 && |Escape(d)| >= 6
    ensures c == d && x == y
  {
    var m, n := Hex4(FirstUnit(c)), Hex4(FirstUnit(d));
    var u, v := SecondPart(c) + x, SecondPart(d) + y;
    assert "\\u" + (m + u) == "\\u" + (n + v) by {
      EscapeParts(c, x);
      EscapeParts(d, y);
    }
    SameTail("\\u", "\\u", m + u, n + v);
    SameTail(m, n, u, v);
    Hex4Injective(FirstUnit(c), FirstUnit(d));
    SecondPartUnique(c, d, x, y);
  }

  lemma EscapeUnique(c: char, d: char, x: string, y: string)
    requires Escape(c) + x == Escape(d) + y
    ensures c == d && x == y
  {
    var a, b := Escape(c) + x, Escape(d) + y;
    assert a[0] == b[0];
    if a[0] != '\\' {
      SameTail(Escape(c), Escape(d), x, y);
    } else {
      assert a[1] == b[1];
      if a[1] != 'u' {
        SameTail(Escape(c), Escape(d), x, y);
      } else {
        EscapeUniqueUnit(c, d, x, y);
      }
    }
  }

  lemma {:induction false} EscapeOnUnique(s: string, t: string, x: string, y: string)
    requires EscapeOn(s, QUOTE + x) == EscapeOn(t, QUOTE + y)
    ensures s == t && x == y
  {
    if s != [] && t != [] {
      EscapeUnique(s[0], t[0], EscapeOn(s[1..], QUOTE + x), EscapeOn(t[1..], QUOTE + y));
      EscapeOnUnique(s[1..], t[1..], x, y);
      assert s == [s[0]] + s[1..] && t == [t[0]] + t[1..];
    } else {
      assert EscapeOn(s, QUOTE + x)[0] == EscapeOn(t, QUOTE + y)[0];
      SameTail(QUOTE, QUOTE, x, y);
    }
  }

  lemma QuoteUnique(s: string, t: string, x: string, y: string)
    requires QuoteOn(s, x) == QuoteOn(t, y)
    ensures s == t && x == y
  {
    SameTail(QUOTE, QUOTE, EscapeOn(s, QUOTE + x), EscapeOn(t, QUOTE + y));
    EscapeOnUnique(s, t, x, y);
  }

  /** The number a run of digits stands for. */
  ghost function DigitsValue(s: string): int {
    if s == [] then 0 else 10 * DigitsValue(s[..|s| - 1]) + (s[|s| - 1] as int - '0' as int)
  }

  lemma {:induction false} NatTextValue(n: nat)
    ensures DigitsValue(NatText(n)) == n
  {
    if n < 10 {
    } else {
      NatTextValue(n / 10);
      assert NatText(n)[..|NatText(n)| - 1] == NatText(n / 10);
    }
  }

  /** A run of digits ends where the first other character stands. */
  lemma {:induction false} DigitsEnd(s: string, t: string, x: string, y: string)
    requires forall c | c in s :: IsDigit(c)
    requires forall c | c in t :: IsDigit(c)
    requires Delimited(x) && Delimited(y) && s + x == t + y
    ensures s == t && x == y
  {
    assert s == [] || (s[0] in s && (s + x)[0] == s[0]);
    assert t == [] || (t[0] in t && (t + y)[0] == t[0]);
    if s != [] && t != [] {
      assert s + x == [s[0]] + (s[1..] + x) && t + y == [t[0]] + (t[1..] + y);
      SameTail([s[0]], [t[0]], s[1..] + x, t[1..] + y);
      DigitsEnd(s[1..], t[1..], x, y);
      assert s == [s[0]] + s[1..] && t == [t[0]] + t[1..];
    } else {
      assert s + x == if s == [] then x else s + x;
      assert t + y == if t == [] then y else t + y;
    }
  }

  /** The first character of a number: a digit, or the sign of a negative one. */
  lemma IntTextLead(n: int)
    ensures IntText(n) != [] && (if n < 0 then IntText(n)[0] == '-' else IsDigit(IntText(n)[0]))
  {
  }

  lemma NatTextUnique(m: nat, n: nat, x: string, y: string)
    requires Delimited(x) && Delimited(y) && NatText(m) + x == NatText(n) + y
    ensures m == n && x == y
  {
    DigitsEnd(NatText(m), NatText(n), x, y);
    NatTextValue(m);
    NatTextValue(n);
  }

  lemma SignInFront(s: string, x: string)
    ensures ("-" + s) + x == "-" + (s + x)
  {
  }

  lemma IntTextUnique(m: int, n: int, x: string, y: string)
    requires Delimited(x) && Delimited(y) && IntText(m) + x == IntText(n) + y
    ensures m == n && x == y
  {
    IntTextLead(m);
    IntTextLead(n);
    assert m < 0 <==> n < 0 by {
      assert (IntText(m) + x)[0] == (IntText(n) + y)[0];
    }
    if m < 0 {
      SignInFront(NatText(-m), x);
      SignInFront(NatText(-n), y);
      SameTail("-", "-", NatText(-m) + x, NatText(-n) + y);
      NatTextUnique(-m, -n, x, y);
    } else {
      NatTextUnique(m, n, x, y);
    }
  }

  /** The first character of a serialised value tells what kind of value it is. */
  function Lead(j: Json): char {
    match j
    case Null => 'n'
    case Bool(b) => if b then 't' else 'f'
    case Int(n) => if IntText(n) == "" then '0' else IntText(n)[0]
    case Str(_) => QUOTE[0]
    case Arr(_) => '['
    case Obj(_) => '{'
  }

  lemma DumpsLead(j: Json, rest: string)
    ensures DumpsOn(j, rest) != [] && DumpsOn(j, rest)[0] == Lead(j)
    ensures Lead(j) !in {',', ']', '}'}
    ensures j.Int? <==> (IsDigit(Lead(j)) || Lead(j) == '-')
  {
    if j.Int? {
      IntTextLead(j.number);
    }
  }

  /** Serialised values form a prefix code: what follows a value cannot be taken for part of it. */
  lemma {:induction false} DumpsUnique(a: Json, b: Json, x: string, y: string)
    requires Delimited(x) && Delimited(y) && DumpsOn(a, x) == DumpsOn(b, y)
    ensures a == b && x == y
    decreases a, 1, 0
  {
    hide IntText, QuoteOn;
    DumpsLead(a, x);
    DumpsLead(b, y);
    match a {
      case Null =>
        SameTail("null", "null", x, y);
      case Bool(f) =>
        SameTail(if f then "true" else "false", if f then "true" else "false", x, y);
      case Int(n) =>
        IntTextUnique(n, b.number, x, y);
      case Str(u) =>
        QuoteUnique(u, b.text, x, y);
      case Arr(xs) =>
        SameTail("[", "[", ItemsOn(xs, x), ItemsOn(b.items, y));
        ItemsUnique(xs, b.items, x, y);
      case Obj(m) =>
        ObjectsUnique(a, b, x, y);
    }
  }

  lemma {:induction false} ObjectsUnique(a: Json, b: Json, x: string, y: string)
    requires a.Obj? && b.Obj? && DumpsOn(a, x) == DumpsOn(b, y)
    ensures a == b && x == y
    decreases a, 0, |a.fields.Keys| + 1
  {
    var ka, kb := TextsInOrder(a.fields.Keys), TextsInOrder(b.fields.Keys);
    SameTail("{", "{", MembersOn(a, ka, x), MembersOn(b, kb, y));
    MembersUnique(a, b, ka, kb, x, y);
    assert a.fields.Keys == b.fields.Keys by {
      assert forall k :: k in a.fields.Keys <==> k in ka;
      assert forall k :: k in b.fields.Keys <==> k in kb;
    }
    assert a.fields == b.fields;
  }

  lemma {:induction false} ItemsUnique(xs: seq<Json>, ys: seq<Json>, x: string, y: string)
    requires ItemsOn(xs, x) == ItemsOn(ys, y)
    ensures xs == ys && x == y
    decreases xs, 0, 0
  {
    if xs != [] && ys != [] {
      var moreX := if |xs| == 1 then "]" + x else "," + ItemsOn(xs[1..], x);
      var moreY := if |ys| == 1 then "]" + y else "," + ItemsOn(ys[1..], y);
      DumpsUnique(xs[0], ys[0], moreX, moreY);
      assert moreX[0] == moreY[0];
      assert xs == [xs[0]] + xs[1..] && ys == [ys[0]] + ys[1..];
      if |xs| == 1 {
        SameTail("]", "]", x, y);
      } else {
        SameTail(",", ",", ItemsOn(xs[1..], x), ItemsOn(ys[1..], y));
        ItemsUnique(xs[1..], ys[1..], x, y);
      }
    } else {
      if xs != [] {
        DumpsLead(xs[0], if |xs| == 1 then "]" + x else "," + ItemsOn(xs[1..], x));
      }
      if ys != [] {
        DumpsLead(ys[0], if |ys| == 1 then "]" + y else "," + ItemsOn(ys[1..], y));
      }
      assert ItemsOn(xs, x)[0] == ItemsOn(ys, y)[0];
      SameTail("]", "]", x, y);
    }
  }

  lemma {:induction false} MembersUnique(a: Json, b: Json, ka: seq<string>, kb: seq<string>, x: string, y: string)
    requires a.Obj? && b.Obj?
    requires (forall k | k in ka :: k in a.fields) && (forall k | k in kb :: k in b.fields)
    requires MembersOn(a, ka, x) == MembersOn(b, kb, y)
    ensures ka == kb && x == y
    ensures forall k | k in ka :: k in b.fields && a.fields[k] == b.fields[k]
    decreases a, 0, |ka|
  {
    assert MembersOn(a, ka, x)[0] == MembersOn(b, kb, y)[0];
    if ka != [] && kb != [] {
      var moreX := if |ka| == 1 then "}" + x else "," + MembersOn(a, ka[1..], x);
      var moreY := if |kb| == 1 then "}" + y else "," + MembersOn(b, kb[1..], y);
      var va, vb := DumpsOn(a.fields[ka[0]], moreX), DumpsOn(b.fields[kb[0]], moreY);
      QuoteUnique(ka[0], kb[0], ":" + va, ":" + vb);
      SameTail(":", ":", va, vb);
      DumpsUnique(a.fields[ka[0]], b.fields[kb[0]], moreX, moreY);
      assert moreX[0] == moreY[0];
      assert ka == [ka[0]] + ka[1..] && kb == [kb[0]] + kb[1..];
      if |ka| == 1 {
        SameTail("}", "}", x, y);
      } else {
        SameTail(",", ",", MembersOn(a, ka[1..], x), MembersOn(b, kb[1..], y));
        MembersUnique(a, b, ka[1..], kb[1..], x, y);
      }
    } else {
      SameTail("}", "}", x, y);
    }
  }

  /** Equal texts come only from equal values. */
  lemma DumpsInjective(a: Json, b: Json)
    ensures Dumps(a) == Dumps(b) <==> a == b
  {
    if Dumps(a) == Dumps(b) {
      DumpsUnique(a, b, "", "");
    }
  }

  // ---- the text, by the grammar of section 2 to 7 of RFC 8259 -------------------------------

  lemma Assoc(a: string, b: string, c: string)
    ensures a + (b + c) == (a + b) + c
  {
  }

  lemma Regroup(whole: string, part: string, front: string, more: string, rest: string)
    requires whole == front + (more + rest) && part == front + more
    ensures whole == part + rest
  {
  }

  lemma {:induction false} EscapeAppends(s: string, rest: string)
    ensures EscapeOn(s, rest) == EscapeOn(s, "") + rest
  {
    hide Escape;
    if s == [] {
    } else {
      EscapeAppends(s[1..], rest);
      Assoc(Escape(s[0]), EscapeOn(s[1..], ""), rest);
    }
  }

  lemma QuoteAppends(s: string, rest: string)
    ensures QuoteOn(s, rest) == QuoteOn(s, "") + rest
  {
    hide EscapeOn;
    EscapeAppends(s, QUOTE + rest);
    EscapeAppends(s, QUOTE + "");
    assert QUOTE + "" == QUOTE;
    Assoc(EscapeOn(s, ""), QUOTE, rest);
    Assoc(QUOTE, EscapeOn(s, "") + QUOTE, rest);
  }

  /** Serialising in front of a text is serialising, and then the text. */
  lemma {:induction false} DumpsAppends(j: Json, rest: string)
    ensures DumpsOn(j, rest) == Dumps(j) + rest
    decreases j, 1, 0
  {
    match j
    case Null =>
    case Bool(_) =>
    case Int(_) =>
    case Str(s) => QuoteAppends(s, rest);
    case Arr(xs) => ItemsAppend(xs, rest);
    case Obj(m) => MembersAppend(j, TextsInOrder(m.Keys), rest);
  }

  /** What follows the first item, and the first member. */
  function MoreItems(xs: seq<Json>, rest: string): string
    requires xs != []
  {
    if |xs| == 1 then "]" + rest else "," + ItemsOn(xs[1..], rest)
  }

  function MoreMembers(j: Json, keys: seq<string>, rest: string): string
    requires j.Obj? && keys != [] && forall k | k in keys :: k in j.fields
  {
    if |keys| == 1 then "}" + rest else "," + MembersOn(j, keys[1..], rest)
  }

  lemma {:induction false} ItemsAppend(xs: seq<Json>, rest: string)
    ensures ItemsOn(xs, rest) == ItemsOn(xs, "") + rest
    ensures xs != [] ==> ItemsOn(xs, rest) == Dumps(xs[0]) + MoreItems(xs, rest)
    decreases xs, 0, 0
  {
    hide Dumps, DumpsOn;
    if xs == [] {
    } else {
      ItemsAppend(xs[1..], rest);
      Assoc(",", ItemsOn(xs[1..], ""), rest);
      assert MoreItems(xs, rest) == MoreItems(xs, "") + rest;
      DumpsAppends(xs[0], MoreItems(xs, rest));
      DumpsAppends(xs[0], MoreItems(xs, ""));
      assert ItemsOn(xs, rest) == DumpsOn(xs[0], MoreItems(xs, rest));
      assert ItemsOn(xs, "") == DumpsOn(xs[0], MoreItems(xs, ""));
      hide MoreItems, ItemsOn;
      Regroup(ItemsOn(xs, rest), ItemsOn(xs, ""), Dumps(xs[0]), MoreItems(xs, ""), rest);
    }
  }

  lemma {:induction false} MembersAppend(j: Json, keys: seq<string>, rest: string)
    requires j.Obj? && forall k | k in keys :: k in j.fields
    ensures MembersOn(j, keys, rest) == MembersOn(j, keys, "") + rest
    ensures keys != [] ==> MembersOn(j, keys, rest) == MemberText(j)(keys[0]) + MoreMembers(j, keys, rest)
    decreases j, 0, |keys|
  {
    hide Dumps, DumpsOn, QuoteOn;
    if keys == [] {
    } else {
      MembersAppend(j, keys[1..], rest);
      Assoc(",", MembersOn(j, keys[1..], ""), rest);
      assert MoreMembers(j, keys, rest) == MoreMembers(j, keys, "") + rest;
      DumpsAppends(j.fields[keys[0]], MoreMembers(j, keys, rest));
      DumpsAppends(j.fields[keys[0]], MoreMembers(j, keys, ""));
      assert MembersOn(j, keys, rest) == QuoteOn(keys[0], ":" + DumpsOn(j.fields[keys[0]], MoreMembers(j, keys, rest)));
      assert MembersOn(j, keys, "") == QuoteOn(keys[0], ":" + DumpsOn(j.fields[keys[0]], MoreMembers(j, keys, "")));
      hide MoreMembers, MembersOn;
      MemberAppends(j, keys[0], MoreMembers(j, keys, rest));
      MemberAppends(j, keys[0], MoreMembers(j, keys, ""));
      hide MemberText;
      Assoc(MemberText(j)(keys[0]), MoreMembers(j, keys, ""), rest);
    }
  }

  /** One entry of an object. */
  function MemberText(j: Json): string -> string
    requires j.Obj?
  {
    k => Dumps(Str(k)) + ":" + if k in j.fields then Dumps(j.fields[k]) else ""
  }

  lemma MemberAppends(j: Json, k: string, more: string)
    requires j.Obj? && k in j.fields
    ensures QuoteOn(k, ":" + (Dumps(j.fields[k]) + more)) == MemberText(j)(k) + more
  {
    assert Dumps(Str(k)) == QuoteOn(k, "");
    hide QuoteOn, Dumps;
    var v := Dumps(j.fields[k]);
    QuoteAppends(k, ":" + (v + more));
    Assoc(":", v, more);
    Assoc(QuoteOn(k, ""), ":" + v, more);
    Assoc(QuoteOn(k, ""), ":", v);
  }

  lemma {:induction false} ItemsText(xs: seq<Json>)
    ensures ItemsOn(xs, "") == Join(Map(xs, Dumps), ",") + "]"
  {
    hide Dumps;
    if xs == [] {
    } else {
      var texts := Map(xs, Dumps);
      ItemsAppend(xs, "");
      if |xs| == 1 {
        assert Join(texts, ",") == texts[0] && MoreItems(xs, "") == "]";
      } else {
        ItemsText(xs[1..]);
        JoinFront(texts, ",");
        assert texts[1..] == Map(xs[1..], Dumps) && MoreItems(xs, "") == "," + ItemsOn(xs[1..], "");
        hide ItemsOn, MoreItems, Join, Map;
        Assoc(",", Join(texts[1..], ","), "]");
        Assoc(texts[0], "," + Join(texts[1..], ","), "]");
        Assoc(texts[0], ",", Join(texts[1..], ","));
      }
    }
  }

  lemma {:induction false} MembersText(j: Json, keys: seq<string>)
    requires j.Obj? && forall k | k in keys :: k in j.fields
    ensures MembersOn(j, keys, "") == Join(Map(keys, MemberText(j)), ",") + "}"
  {
    hide MemberText;
    if keys == [] {
    } else {
      var texts := Map(keys, MemberText(j));
      MembersAppend(j, keys, "");
      if |keys| == 1 {
        assert Join(texts, ",") == texts[0] && MoreMembers(j, keys, "") == "}";
      } else {
        MembersText(j, keys[1..]);
        JoinFront(texts, ",");
        assert texts[1..] == Map(keys[1..], MemberText(j));
        assert MoreMembers(j, keys, "") == "," + MembersOn(j, keys[1..], "");
        hide MembersOn, MoreMembers, Join, Map;
        Assoc(",", Join(texts[1..], ","), "}");
        Assoc(texts[0], "," + Join(texts[1..], ","), "}");
        Assoc(texts[0], ",", Join(texts[1..], ","));
      }
    }
  }

  /** A character that a string shows as it is. */
  predicate IsPlain(c: char) {
    ' ' <= c <= '~' && c != QUOTE[0] && c != '\\'
  }

  lemma {:induction false} PlainText(s: string)
    requires forall i | 0 <= i < |s| :: IsPlain(s[i])
    ensures EscapeOn(s, "") == s
  {
    if s == [] {
    } else {
      PlainText(s[1..]);
    }
  }

  /** The text of a value: the literal names, arrays and objects with their separators and no blanks,
      members by key in the order of their keys, and strings between quotes. */
  lemma DumpsGrammar(j: Json)
    ensures Dumps(Null) == "null" && Dumps(Bool(true)) == "true" && Dumps(Bool(false)) == "false"
    ensures j.Arr? ==> Dumps(j) == "[" + (Join(Map(j.items, Dumps), ",") + "]")
    ensures j.Obj? ==> Dumps(j) == "{" + (Join(Map(TextsInOrder(j.fields.Keys), MemberText(j)), ",") + "}")
  {
    if j.Arr? {
      ItemsText(j.items);
    }
    if j.Obj? {
      MembersText(j, TextsInOrder(j.fields.Keys));
    }
  }

  lemma PlainDumps(s: string)
    requires forall i | 0 <= i < |s| :: IsPlain(s[i])
    ensures Dumps(Str(s)) == QUOTE + (s + QUOTE)
  {
    EscapeAppends(s, QUOTE + "");
    assert QUOTE + "" == QUOTE;
    PlainText(s);
  }

  /** A list of keys in increasing order is the order in which they are written. */
  lemma KeysAre(fields: map<string, Json>, keys: seq<string>)
    requires Ascending(keys, TextLe) && forall k :: k in keys <==> k in fields
    ensures TextsInOrder(fields.Keys) == keys
  {
    TextOrder();
    AscendingUnique(TextsInOrder(fields.Keys), keys, TextLe);
  }

  /** Three members, and four. */
  lemma MembersOfThree(j: Json, a: string, b: string, c: string)
    requires j.Obj? && TextsInOrder(j.fields.Keys) == [a, b, c]
    ensures Dumps(j) == "{" + (MemberText(j)(a) + "," + MemberText(j)(b) + "," + MemberText(j)(c) + "}")
  {
    hide Dumps, MemberText, TextsInOrder;
    DumpsGrammar(j);
    JoinOfThree(MemberText(j)(a), MemberText(j)(b), MemberText(j)(c));
    assert Map([a, b, c], MemberText(j)) == [MemberText(j)(a), MemberText(j)(b), MemberText(j)(c)];
  }

  lemma MembersOfFour(j: Json, a: string, b: string, c: string, d: string)
    requires j.Obj? && TextsInOrder(j.fields.Keys) == [a, b, c, d]
    ensures Dumps(j)
            == "{" + (MemberText(j)(a) + "," + MemberText(j)(b) + "," + MemberText(j)(c) + "," + MemberText(j)(d) + "}")
  {
    hide Dumps, MemberText, TextsInOrder;
    DumpsGrammar(j);
    var texts := [MemberText(j)(a), MemberText(j)(b), MemberText(j)(c), MemberText(j)(d)];
    JoinOfFour(MemberText(j)(a), MemberText(j)(b), MemberText(j)(c), MemberText(j)(d));
    assert Map([a, b, c, d], MemberText(j)) == texts;
  }

  lemma JoinOfThree(a: string, b: string, c: string)
    ensures Join([a, b, c], ",") == a + "," + b + "," + c
  {
    assert [a, b, c][..2] == [a, b] && [a, b][..1] == [a];
    assert Join([a, b], ",") == a + "," + b;
  }

  lemma JoinOfFour(a: string, b: string, c: string, d: string)
    ensures Join([a, b, c, d], ",") == a + "," + b + "," + c + "," + d
  {
    assert [a, b, c, d][..3] == [a, b, c];
    JoinOfThree(a, b, c);
  }

  /** The short escapes, and what is written with four digits. */
  lemma ShortEscapes()
    ensures Escape('\n') == "\\n" && Escape('\t') == "\\t" && Escape('\\') == "\\\\" && Escape(QUOTE[0]) == "\\" + QUOTE
  {
    hide Hex4;
  }

  lemma FourDigits()
    ensures Escape('\U{e9}') == "\\u00e9"
  {
    assert Hex4(0xe9) == "00e9";
  }

  /** Beyond the first plane a character is a pair of surrogates. */
  lemma SurrogatePair()
    ensures Escape('\U{1f600}') == "\\ud83d\\ude00"
  {
    assert Hex4(0xd83d) == "d83d" && Hex4(0xde00) == "de00";
    hide Hex4, HexDigit;
    assert (0x1f600 - 0x1_0000) / 0x400 == 0x3d && (0x1f600 - 0x1_0000) % 0x400 == 0x200;
  }

  /** Numbers in decimal digits. */
  lemma DecimalDigits()
    ensures NatText(0) == "0" && NatText(7) == "7" && NatText(12) == "12" && NatText(305) == "305" && IntText(-40) == "-40"
  {
    assert NatText(1) == "1" && NatText(3) == "3" && NatText(30) == "30" && NatText(40) == "40";
  }
}
