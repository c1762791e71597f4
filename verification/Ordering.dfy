/** Total orders, and the two ways the tools put things in order: Python's `sorted` on a list
    and on a set. The point of both is that the result does not depend on the order of the input. */
module Ordering {

  /** What sorting needs: a key may be shared. */
  ghost predicate TotalPreorder<T(!new)>(le: (T, T) -> bool) {
    && (forall x :: le(x, x))
    && (forall x, y, z :: le(x, y) && le(y, z) ==> le(x, z))
    && (forall x, y :: le(x, y) || le(y, x))
  }

  ghost predicate TotalOrder<T(!new)>(le: (T, T) -> bool) {
    TotalPreorder(le) && forall x, y :: le(x, y) && le(y, x) ==> x == y
  }

  /** x comes before every element of s. */
  ghost predicate Before<T>(x: T, s: seq<T>, le: (T, T) -> bool) {
    forall y | y in s :: le(x, y)
  }

  ghost predicate Sorted<T>(s: seq<T>, le: (T, T) -> bool) {
    s == [] || (Before(s[0], s[1..], le) && Sorted(s[1..], le))
  }

  /** Strictly increasing: sorted and free of repetitions. */
  ghost predicate Ascending<T>(s: seq<T>, le: (T, T) -> bool) {
    s == [] || (Before(s[0], s[1..], le) && s[0] !in s[1..] && Ascending(s[1..], le))
  }

  /** Every element is in order with each that comes later. */
  lemma {:induction false} SortedIff<T>(s: seq<T>, le: (T, T) -> bool)
    ensures Sorted(s, le) <==> forall i, j | 0 <= i < j < |s| :: le(s[i], s[j])
  {
    if s == [] {
    } else {
      var rest := s[1..];
      SortedIff(rest, le);
      if Sorted(s, le) {
        forall i, j | 0 <= i < j < |s| ensures le(s[i], s[j]) {
          assert s[j] == rest[j - 1] && rest[j - 1] in rest;
          assert i > 0 ==> s[i] == rest[i - 1];
        }
      }
      if forall i, j | 0 <= i < j < |s| :: le(s[i], s[j]) {
        forall i, j | 0 <= i < j < |rest| ensures le(rest[i], rest[j]) {
          assert rest[i] == s[i + 1] && rest[j] == s[j + 1];
        }
        forall y | y in rest ensures le(s[0], y) {
          var k :| 0 <= k < |rest| && rest[k] == y;
          assert s[k + 1] == y;
        }
      }
    }
  }

  lemma {:induction false} AscendingIff<T>(s: seq<T>, le: (T, T) -> bool)
    ensures Ascending(s, le) <==> forall i, j | 0 <= i < j < |s| :: le(s[i], s[j]) && s[i] != s[j]
  {
    if s == [] {
    } else {
      var rest := s[1..];
      AscendingIff(rest, le);
      if Ascending(s, le) {
        forall i, j | 0 <= i < j < |s| ensures le(s[i], s[j]) && s[i] != s[j] {
          assert s[j] == rest[j - 1] && rest[j - 1] in rest;
          assert i > 0 ==> s[i] == rest[i - 1];
        }
      }
      if forall i, j | 0 <= i < j < |s| :: le(s[i], s[j]) && s[i] != s[j] {
        forall i, j | 0 <= i < j < |rest| ensures le(rest[i], rest[j]) && rest[i] != rest[j] {
          assert rest[i] == s[i + 1] && rest[j] == s[j + 1];
        }
        forall y | y in rest ensures le(s[0], y) && s[0] != y {
          var k :| 0 <= k < |rest| && rest[k] == y;
          assert s[k + 1] == y;
        }
      }
    }
  }

  // ---- sorted(list) ------------------------------------------------------------------------

  function Insert<T>(x: T, s: seq<T>, le: (T, T) -> bool): seq<T> {
    if s == [] then [x]
    else if le(x, s[0]) then [x] + s
    else [s[0]] + Insert(x, s[1..], le)
  }

  function Sort<T>(s: seq<T>, le: (T, T) -> bool): seq<T> {
    if s == [] then [] else Insert(s[0], Sort(s[1..], le), le)
  }

  lemma {:induction false} InsertKeeps<T>(x: T, s: seq<T>, le: (T, T) -> bool)
    ensures multiset(Insert(x, s, le)) == multiset(s) + multiset{x}
  {
    if s == [] {
    } else {
      assert s == [s[0]] + s[1..];
      if !le(x, s[0]) {
        InsertKeeps(x, s[1..], le);
      }
    }
  }

  lemma {:induction false} InsertSorted<T(!new)>(x: T, s: seq<T>, le: (T, T) -> bool)
    requires TotalPreorder(le) && Sorted(s, le)
    ensures Sorted(Insert(x, s, le), le)
  {
    if s == [] {
    } else if le(x, s[0]) {
      assert s == [s[0]] + s[1..];
      assert ([x] + s)[1..] == s;
    } else {
      InsertSorted(x, s[1..], le);
      InsertKeeps(x, s[1..], le);
      var rest := Insert(x, s[1..], le);
      forall y | y in rest ensures le(s[0], y) {
        assert y in multiset(rest);
      }
      assert Insert(x, s, le)[1..] == rest;
    }
  }

  /** `sorted` returns a sorted rearrangement of its input. */
  lemma {:induction false} SortSorts<T(!new)>(s: seq<T>, le: (T, T) -> bool)
    requires TotalPreorder(le)
    ensures Sorted(Sort(s, le), le)
    ensures multiset(Sort(s, le)) == multiset(s)
  {
    if s == [] {
    } else {
      SortSorts(s[1..], le);
      InsertSorted(s[0], Sort(s[1..], le), le);
      InsertKeeps(s[0], Sort(s[1..], le), le);
      assert s == [s[0]] + s[1..];
    }
  }

  /** Two sorted lists with the same elements start with the same one. */
  lemma SameLeast<T(!new)>(a: seq<T>, b: seq<T>, le: (T, T) -> bool)
    requires TotalOrder(le)
    requires a != [] && b != [] && Before(a[0], a[1..], le) && Before(b[0], b[1..], le)
    requires a[0] in b && b[0] in a
    ensures a[0] == b[0]
  {
    assert a == [a[0]] + a[1..] && b == [b[0]] + b[1..];
    assert le(b[0], a[0]) && le(a[0], b[0]);
  }

  lemma TailMultiset<T>(a: seq<T>)
    requires a != []
    ensures multiset(a[1..]) == multiset(a) - multiset{a[0]}
  {
    assert a == [a[0]] + a[1..];
  }

  lemma {:induction false} SortedUnique<T(!new)>(a: seq<T>, b: seq<T>, le: (T, T) -> bool)
    requires TotalOrder(le) && Sorted(a, le) && Sorted(b, le)
    requires multiset(a) == multiset(b)
    ensures a == b
  {
    assert |multiset(a)| == |a| && |multiset(b)| == |b|;
    if a == [] {
    } else {
      assert a[0] in multiset(b) && b[0] in multiset(a);
      SameLeast(a, b, le);
      TailMultiset(a);
      TailMultiset(b);
      SortedUnique(a[1..], b[1..], le);
      assert a == [a[0]] + a[1..] && b == [b[0]] + b[1..];
    }
  }

  /** Two lists sort alike exactly when one is a rearrangement of the other. */
  lemma SortCanonical<T(!new)>(a: seq<T>, b: seq<T>, le: (T, T) -> bool)
    requires TotalOrder(le)
    ensures Sort(a, le) == Sort(b, le) <==> multiset(a) == multiset(b)
  {
    SortSorts(a, le);
    SortSorts(b, le);
    if multiset(a) == multiset(b) {
      SortedUnique(Sort(a, le), Sort(b, le), le);
    }
  }

  // ---- lists without repetitions -----------------------------------------------------------

  lemma {:induction false} OnceEach<T>(s: seq<T>, x: T)
    requires forall i, j | 0 <= i < j < |s| :: s[i] != s[j]
    ensures multiset(s)[x] <= 1
  {
    if s == [] {
    } else {
      var last, before := s[|s| - 1], s[..|s| - 1];
      OnceEach(before, x);
      assert s == before + [last];
      assert last !in before;
    }
  }

  lemma TwiceCounts<T>(s: seq<T>, i: nat, j: nat)
    requires i < j < |s|
    ensures s[i] == s[j] ==> multiset(s)[s[i]] >= 2
  {
    assert s == s[..j] + s[j..];
    assert s[..j][i] == s[i] && s[j..][0] == s[j];
    assert s[i] in s[..j] && s[j] in s[j..];
  }

  /** Rearranging a list without repetitions makes none. */
  lemma DistinctAnyOrder<T>(a: seq<T>, b: seq<T>, i: nat, j: nat)
    requires multiset(a) == multiset(b) && i < j < |b|
    requires forall k, l | 0 <= k < l < |a| :: a[k] != a[l]
    ensures b[i] != b[j]
  {
    OnceEach(a, b[i]);
    TwiceCounts(b, i, j);
  }

  lemma SameMembers<T>(a: seq<T>, b: seq<T>)
    requires multiset(a) == multiset(b)
    ensures forall x :: x in a <==> x in b
    ensures |a| == |b|
  {
    assert |multiset(a)| == |a| && |multiset(b)| == |b|;
    forall x ensures x in a <==> x in b {
      assert x in a <==> x in multiset(a);
      assert x in b <==> x in multiset(b);
    }
  }

  // ---- applying a function to every element -----------------------------------------------

  function Map<A, B>(s: seq<A>, f: A -> B): (r: seq<B>)
    ensures |r| == |s| && forall i | 0 <= i < |s| :: r[i] == f(s[i])
  {
    seq(|s|, i requires 0 <= i < |s| => f(s[i]))
  }

  lemma MapWithout<A, B>(s: seq<A>, k: nat, f: A -> B)
    requires k < |s|
    ensures multiset(Map(s, f)) == multiset(Map(s[..k] + s[k + 1..], f)) + multiset{f(s[k])}
  {
    var rest := s[..k] + s[k + 1..];
    assert Map(s, f) == Map(s, f)[..k] + [f(s[k])] + Map(s, f)[k + 1..];
    assert Map(rest, f) == Map(s, f)[..k] + Map(s, f)[k + 1..];
  }

  lemma MultisetWithout<A>(s: seq<A>, k: nat)
    requires k < |s|
    ensures multiset(s) == multiset(s[..k] + s[k + 1..]) + multiset{s[k]}
  {
    assert s == s[..k] + [s[k]] + s[k + 1..];
  }

  lemma PlaceOf<A>(a: seq<A>, b: seq<A>) returns (k: nat)
    requires multiset(a) == multiset(b) && a != []
    ensures k < |b| && b[k] == a[0]
  {
    assert a[0] in multiset(b);
    k :| 0 <= k < |b| && b[k] == a[0];
  }

  lemma RestAnyOrder<A>(a: seq<A>, b: seq<A>, k: nat)
    requires multiset(a) == multiset(b) && a != [] && k < |b| && b[k] == a[0]
    ensures multiset(a[1..]) == multiset(b[..k] + b[k + 1..])
  {
    TailMultiset(a);
    MultisetWithout(b, k);
    assert multiset(b[..k] + b[k + 1..]) == multiset(b) - multiset{a[0]};
  }

  /** Rearranging the arguments rearranges the results. */
  lemma {:induction false} MapAnyOrder<A, B>(a: seq<A>, b: seq<A>, f: A -> B)
    requires multiset(a) == multiset(b)
    ensures multiset(Map(a, f)) == multiset(Map(b, f))
    decreases |a|
  {
    hide Map;
    if a == [] {
      assert |multiset(b)| == 0;
      assert b == [];
    } else {
      var k := PlaceOf(a, b);
      var rest := b[..k] + b[k + 1..];
      RestAnyOrder(a, b, k);
      MapAnyOrder(a[1..], rest, f);
      assert multiset(Map(a, f)) == multiset(Map(a[1..], f)) + multiset{f(a[0])} by {
        assert a[..0] + a[1..] == a[1..];
        MapWithout(a, 0, f);
      }
      assert multiset(Map(b, f)) == multiset(Map(rest, f)) + multiset{f(a[0])} by {
        MapWithout(b, k, f);
      }
    }
  }

  lemma {:induction false} MapInjective<A(!new), B>(a: seq<A>, b: seq<A>, f: A -> B)
    requires forall x, y :: f(x) == f(y) ==> x == y
    requires multiset(Map(a, f)) == multiset(Map(b, f))
    ensures multiset(a) == multiset(b)
    decreases |a|
  {
    var fa, fb := Map(a, f), Map(b, f);
    assert |multiset(fa)| == |a| && |multiset(fb)| == |b|;
    if a == [] {
    } else {
      assert fa[0] in multiset(fb);
      var k :| 0 <= k < |b| && fb[k] == fa[0];
      assert b[k] == a[0];
      var restA, restB := a[..0] + a[1..], b[..k] + b[k + 1..];
      MultisetWithout(a, 0);
      MultisetWithout(b, k);
      MapWithout(a, 0, f);
      MapWithout(b, k, f);
      hide Map;
      assert multiset(Map(restA, f)) == multiset(fa) - multiset{fa[0]};
      assert multiset(Map(restB, f)) == multiset(fb) - multiset{fa[0]};
      MapInjective(restA, restB, f);
    }
  }

  // ---- sorted(set) -------------------------------------------------------------------------

  ghost predicate IsLeast<T>(m: T, s: set<T>, le: (T, T) -> bool) {
    m in s && forall x | x in s :: le(m, x)
  }

  lemma {:induction false} LeastExists<T(!new)>(s: set<T>, le: (T, T) -> bool) returns (m: T)
    requires TotalOrder(le) && s != {}
    ensures IsLeast(m, s, le)
    decreases |s|
  {
    var e :| e in s;
    m := e;
    if s == {e} {
    } else {
      var rest := s - {e};
      var least := LeastExists(rest, le);
      if !le(e, least) {
        m := least;
      }
      forall x | x in s ensures le(m, x) {
        assert x == e || x in rest;
        assert x in rest ==> le(least, x);
      }
    }
  }

  lemma SomeLeast<T(!new)>(s: set<T>, le: (T, T) -> bool)
    requires TotalOrder(le) && s != {}
    ensures exists m :: m in s && forall x | x in s :: le(m, x)
  {
    var m := LeastExists(s, le);
    assert IsLeast(m, s, le);
  }

  function InOrder<T(==,!new)>(s: set<T>, le: (T, T) -> bool): (r: seq<T>)
    requires TotalOrder(le)
    ensures Ascending(r, le)
    ensures forall x :: x in r <==> x in s
    ensures |r| == |s|
    decreases |s|
  {
    if s == {} then []
    else
      SomeLeast(s, le);
      var m :| m in s && forall x | x in s :: le(m, x);
      var rest := InOrder(s - {m}, le);
      assert ([m] + rest)[1..] == rest;
      [m] + rest
  }

  /** A set has only one strictly increasing listing. */
  lemma {:induction false} AscendingUnique<T(!new)>(a: seq<T>, b: seq<T>, le: (T, T) -> bool)
    requires TotalOrder(le) && Ascending(a, le) && Ascending(b, le)
    requires forall x :: x in a <==> x in b
    ensures a == b
  {
    assert a == [] || a[0] in a;
    assert b == [] || b[0] in b;
    if a == [] {
    } else {
      SameLeast(a, b, le);
      assert a == [a[0]] + a[1..] && b == [b[0]] + b[1..];
      forall x ensures x in a[1..] <==> x in b[1..] {
        assert x in a <==> x == a[0] || x in a[1..];
        assert x in b <==> x == b[0] || x in b[1..];
      }
      AscendingUnique(a[1..], b[1..], le);
    }
  }

  // ---- the orders in use -------------------------------------------------------------------

  /** Python's order on strings: code point by code point, a proper prefix first. */
  predicate TextLe(a: string, b: string) {
    || a == []
    || (b != [] && (a[0] < b[0] || (a[0] == b[0] && TextLe(a[1..], b[1..]))))
  }

  lemma {:induction false} TextLeTransitive(a: string, b: string, c: string)
    requires TextLe(a, b) && TextLe(b, c)
    ensures TextLe(a, c)
  {
    if a != [] && a[0] == b[0] && b[0] == c[0] {
      TextLeTransitive(a[1..], b[1..], c[1..]);
    }
  }

  lemma {:induction false} TextLeAntisymmetric(a: string, b: string)
    requires TextLe(a, b) && TextLe(b, a)
    ensures a == b
  {
    if a == [] {
    } else {
      TextLeAntisymmetric(a[1..], b[1..]);
      assert a == [a[0]] + a[1..] && b == [b[0]] + b[1..];
    }
  }

  lemma {:induction false} TextLeTotal(a: string, b: string)
    ensures TextLe(a, b) || TextLe(b, a)
  {
    if a != [] && b != [] && a[0] == b[0] {
      TextLeTotal(a[1..], b[1..]);
    }
  }

  lemma TextOrder()
    ensures TotalOrder(TextLe)
  {
    forall x: string ensures TextLe(x, x) { TextLeTotal(x, x); }
    forall x, y | TextLe(x, y) && TextLe(y, x) ensures x == y { TextLeAntisymmetric(x, y); }
    forall x, y, z | TextLe(x, y) && TextLe(y, z) ensures TextLe(x, z) { TextLeTransitive(x, y, z); }
    forall x, y ensures TextLe(x, y) || TextLe(y, x) { TextLeTotal(x, y); }
  }

  /** The texts first differ at k, and there a has the smaller code point. */
  predicate SmallerAt(a: string, b: string, k: int) {
    0 <= k < |a| && k < |b| && a[..k] == b[..k] && a[k] < b[k]
  }

  lemma {:induction false} SmallerIsLess(a: string, b: string, k: int)
    requires SmallerAt(a, b, k)
    ensures TextLe(a, b)
  {
    if k == 0 {
    } else {
      assert a[0] == a[..k][0] == b[..k][0] == b[0];
      assert a[1..][..k - 1] == a[..k][1..] && b[1..][..k - 1] == b[..k][1..];
      assert a[1..][k - 1] == a[k] && b[1..][k - 1] == b[k];
      SmallerIsLess(a[1..], b[1..], k - 1);
    }
  }

  lemma {:induction false} PrefixIsLess(a: string, b: string)
    requires a <= b
    ensures TextLe(a, b)
  {
    if a == [] {
    } else {
      assert a[1..] <= b[1..];
      PrefixIsLess(a[1..], b[1..]);
    }
  }

  lemma {:induction false} LessIsSmaller(a: string, b: string) returns (k: int)
    requires TextLe(a, b)
    ensures a <= b || SmallerAt(a, b, k)
  {
    k := 0;
    if a == [] || a[0] < b[0] {
    } else {
      k := LessIsSmaller(a[1..], b[1..]);
      assert a == [a[0]] + a[1..] && b == [b[0]] + b[1..];
      if SmallerAt(a[1..], b[1..], k) {
        k := k + 1;
        assert a[..k] == [a[0]] + a[1..][..k - 1] && b[..k] == [b[0]] + b[1..][..k - 1];
      }
    }
  }

  /** A text comes before those it is a prefix of, and before those that have a greater code point where
      they first differ. */
  lemma TextLeIff(a: string, b: string)
    ensures TextLe(a, b) <==> a <= b || exists k :: SmallerAt(a, b, k)
  {
    hide TextLe, SmallerAt;
    if TextLe(a, b) {
      var k := LessIsSmaller(a, b);
    }
    if a <= b {
      PrefixIsLess(a, b);
    }
    if k :| SmallerAt(a, b, k) {
      SmallerIsLess(a, b, k);
    }
  }

  /** `sorted` of a set of strings. */
  function TextsInOrder(s: set<string>): (r: seq<string>)
    ensures Ascending(r, TextLe)
    ensures forall x :: x in r <==> x in s
    ensures |r| == |s|
  {
    TextOrder();
    InOrder(s, TextLe)
  }

  /** Tuples compare by their first component, then by their second. */
  function PairLe<A(==), B>(leA: (A, A) -> bool, leB: (B, B) -> bool): ((A, B), (A, B)) -> bool {
    (p: (A, B), q: (A, B)) => if p.0 == q.0 then leB(p.1, q.1) else leA(p.0, q.0)
  }

  lemma PairLeIff<A, B>(leA: (A, A) -> bool, leB: (B, B) -> bool, p: (A, B), q: (A, B))
    ensures PairLe(leA, leB)(p, q) <==> (p.0 == q.0 && leB(p.1, q.1)) || (p.0 != q.0 && leA(p.0, q.0))
  {
  }

  lemma PairOrder<A(!new), B(!new)>(leA: (A, A) -> bool, leB: (B, B) -> bool)
    requires TotalOrder(leA) && TotalOrder(leB)
    ensures TotalOrder(PairLe(leA, leB))
  {
    var le := PairLe(leA, leB);
    forall p: (A, B), q: (A, B), r: (A, B) | le(p, q) && le(q, r) ensures le(p, r) {
      PairTransitive(leA, leB, p, q, r);
    }
    forall p: (A, B) ensures le(p, p) {
      assert leB(p.1, p.1);
    }
    forall p: (A, B), q: (A, B) | le(p, q) && le(q, p) ensures p == q {
    }
    forall p: (A, B), q: (A, B) ensures le(p, q) || le(q, p) {
      assert leA(p.0, q.0) || leA(q.0, p.0);
      assert leB(p.1, q.1) || leB(q.1, p.1);
    }
  }

  lemma PairTransitive<A(!new), B(!new)>(leA: (A, A) -> bool, leB: (B, B) -> bool, p: (A, B), q: (A, B), r: (A, B))
    requires TotalOrder(leA) && TotalOrder(leB)
    requires PairLe(leA, leB)(p, q) && PairLe(leA, leB)(q, r)
    ensures PairLe(leA, leB)(p, r)
  {
  }

}
