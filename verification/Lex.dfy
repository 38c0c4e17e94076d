/** Lexicographic order on sequences: `str` comparison, and SemVer identifier lists. */
module Lex {

  /** Lexicographic order; a proper prefix comes first. */
  predicate LexLess<T(==)>(less: (T, T) -> bool, a: seq<T>, b: seq<T>) {
    b != [] && (a == [] || (if a[0] == b[0] then LexLess(less, a[1..], b[1..]) else less(a[0], b[0])))
  }

  predicate CharLess(a: char, b: char) { a < b }

  ghost predicate StrictTotal<T(!new)>(less: (T, T) -> bool) {
    && (forall x :: !less(x, x))
    && (forall x, y, z :: less(x, y) && less(y, z) ==> less(x, z))
    && (forall x, y :: x == y || less(x, y) || less(y, x))
  }

  lemma {:induction false} LexIrreflexive<T(!new)>(less: (T, T) -> bool, a: seq<T>)
    requires StrictTotal(less)
    ensures !LexLess(less, a, a)
  {
    if a != [] {
      LexIrreflexive(less, a[1..]);
    }
  }

  lemma {:induction false} LexTransitive<T(!new)>(less: (T, T) -> bool, a: seq<T>, b: seq<T>, c: seq<T>)
    requires StrictTotal(less) && LexLess(less, a, b) && LexLess(less, b, c)
    ensures LexLess(less, a, c)
  {
    if a != [] && a[0] == b[0] == c[0] {
      LexTransitive(less, a[1..], b[1..], c[1..]);
    }
  }

  lemma {:induction false} LexTotal<T(!new)>(less: (T, T) -> bool, a: seq<T>, b: seq<T>)
    requires StrictTotal(less)
    ensures a == b || LexLess(less, a, b) || LexLess(less, b, a)
  {
    if a != [] && b != [] && a[0] == b[0] {
      LexTotal(less, a[1..], b[1..]);
      assert a == [a[0]] + a[1..] && b == [b[0]] + b[1..];
    }
  }

  /** Lexicographic order over a strict total order is one too. */
  lemma LexLaws<T(!new)>(less: (T, T) -> bool, a: seq<T>, b: seq<T>, c: seq<T>)
    requires StrictTotal(less)
    ensures !LexLess(less, a, a)
    ensures LexLess(less, a, b) && LexLess(less, b, c) ==> LexLess(less, a, c)
    ensures a == b || LexLess(less, a, b) || LexLess(less, b, a)
  {
    LexIrreflexive(less, a);
    if LexLess(less, a, b) && LexLess(less, b, c) {
      LexTransitive(less, a, b, c);
    }
    LexTotal(less, a, b);
  }

  /** The first place where `a` and `b` part decides: `a` has ended, or is less there. */
  ghost predicate PartsBelow<T(!new)>(less: (T, T) -> bool, a: seq<T>, b: seq<T>, k: nat) {
    k <= |a| && k < |b| && a[..k] == b[..k] && (k < |a| ==> a[k] != b[k] && less(a[k], b[k]))
  }

  lemma LexIff<T(!new)>(less: (T, T) -> bool, a: seq<T>, b: seq<T>)
    ensures LexLess(less, a, b) ==> exists k: nat :: PartsBelow(less, a, b, k)
    ensures forall k: nat :: PartsBelow(less, a, b, k) ==> LexLess(less, a, b)
  {
    if LexLess(less, a, b) {
      LexParts(less, a, b);
    }
    forall k: nat | PartsBelow(less, a, b, k) ensures LexLess(less, a, b) {
      PartsLess(less, a, b, k);
    }
  }

  lemma {:induction false} LexParts<T(!new)>(less: (T, T) -> bool, a: seq<T>, b: seq<T>)
    requires LexLess(less, a, b)
    ensures exists k: nat :: PartsBelow(less, a, b, k)
  {
    if a == [] || a[0] != b[0] {
      assert PartsBelow(less, a, b, 0);
    } else {
      LexParts(less, a[1..], b[1..]);
      var k: nat :| PartsBelow(less, a[1..], b[1..], k);
      assert a[..k + 1] == [a[0]] + a[1..][..k] && b[..k + 1] == [b[0]] + b[1..][..k];
      assert PartsBelow(less, a, b, k + 1);
    }
  }

  lemma {:induction false} PartsLess<T(!new)>(less: (T, T) -> bool, a: seq<T>, b: seq<T>, k: nat)
    requires PartsBelow(less, a, b, k)
    ensures LexLess(less, a, b)
    decreases k
  {
    if k > 0 {
      assert a[..k][0] == b[..k][0];
      assert a[1..][..k - 1] == a[..k][1..] && b[1..][..k - 1] == b[..k][1..];
      PartsLess(less, a[1..], b[1..], k - 1);
    }
  }

  /** Rust's `str` order, byte by byte. */
  predicate NameLess(a: string, b: string) {
    LexLess(CharLess, a, b)
  }

  /** A name comes before its extensions; otherwise the first differing character decides. */
  lemma NameLessIff(a: string, b: string)
    ensures NameLess(a, b) <==>
            exists k: nat :: k <= |a| && k < |b| && a[..k] == b[..k] && (k < |a| ==> a[k] < b[k])
  {
    LexIff(CharLess, a, b);
    if k: nat :| k <= |a| && k < |b| && a[..k] == b[..k] && (k < |a| ==> a[k] < b[k]) {
      assert PartsBelow(CharLess, a, b, k);
    }
    if NameLess(a, b) {
      var k: nat :| PartsBelow(CharLess, a, b, k);
      assert a[..k] == b[..k];
    }
  }

  lemma NameOrder(a: string, b: string, c: string)
    ensures !NameLess(a, a)
    ensures NameLess(a, b) && NameLess(b, c) ==> NameLess(a, c)
    ensures a == b || NameLess(a, b) || NameLess(b, a)
  {
    LexLaws(CharLess, a, b, c);
  }

  /** Strictly ascending names. */
  predicate Ascending(names: seq<string>) {
    forall i, j | 0 <= i < j < |names| :: NameLess(names[i], names[j])
  }

  /** Only one strictly ascending list has given members. */
  lemma {:induction false} AscendingIsUnique(a: seq<string>, b: seq<string>)
    requires Ascending(a) && Ascending(b) && forall s :: s in a <==> s in b
    ensures a == b
  {
    assert |a| > 0 ==> a[0] in a;
    assert |b| > 0 ==> b[0] in b;
    if a != [] {
      FirstIsLeast(a, b[0]);
      FirstIsLeast(b, a[0]);
      NameOrder(a[0], b[0], a[0]);
      forall s
        ensures s in a[1..] <==> s in b[1..]
      {
        TailMembers(a, s);
        TailMembers(b, s);
      }
      AscendingIsUnique(a[1..], b[1..]);
      assert a == [a[0]] + a[1..] && b == [b[0]] + b[1..];
    }
  }

  lemma FirstIsLeast(a: seq<string>, s: string)
    requires Ascending(a) && s in a
    ensures s == a[0] || NameLess(a[0], s)
  {
  }

  lemma TailMembers(a: seq<string>, s: string)
    requires Ascending(a) && a != []
    ensures s in a[1..] <==> s in a && s != a[0]
  {
    NameOrder(a[0], a[0], a[0]);
    if s in a[1..] {
      var i :| 0 <= i < |a[1..]| && a[1..][i] == s;
      assert NameLess(a[0], a[i + 1]);
    }
  }

  // ---------------------------------------------------------------------
  // Sorting by name
  // ---------------------------------------------------------------------

  function NamesBy<T>(xs: seq<T>, name: T -> string): (r: seq<string>)
    ensures |r| == |xs| && forall i | 0 <= i < |r| :: r[i] == name(xs[i])
  {
    seq(|xs|, i requires 0 <= i < |xs| => name(xs[i]))
  }

  predicate Distinct(names: seq<string>) {
    forall i, j | 0 <= i < j < |names| :: names[i] != names[j]
  }

  function ToSet(names: seq<string>): set<string> { set n | n in names }

  /** Walking a list with a set of the names seen so far. */
  lemma SeenNext(names: seq<string>, i: nat)
    requires i < |names|
    ensures names[..i + 1] == names[..i] + [names[i]]
    ensures ToSet(names[..i + 1]) == ToSet(names[..i]) + {names[i]}
    ensures names[i] in ToSet(names[..i]) <==> names[i] in names[..i]
  {
  }

  /** No name repeats an earlier one. */
  lemma DistinctIff(names: seq<string>)
    ensures Distinct(names) <==> forall i | 0 <= i < |names| :: names[i] !in names[..i]
  {
    if forall i | 0 <= i < |names| :: names[i] !in names[..i] {
      forall i, j | 0 <= i < j < |names| ensures names[i] != names[j] {
        assert names[..j][i] == names[i];
      }
    }
  }

  lemma AscendingIsDistinct(names: seq<string>)
    requires Ascending(names)
    ensures Distinct(names)
  {
    forall i, j | 0 <= i < j < |names| ensures names[i] != names[j] {
      NameOrder(names[i], names[j], names[j]);
    }
  }

  ghost predicate SameMembers<T(!new)>(a: seq<T>, b: seq<T>) {
    forall x :: x in a <==> x in b
  }

  /** `sort_by` on distinct names: the same members, strictly ascending. */
  method SortBy<T(!new)>(xs: seq<T>, name: T -> string) returns (r: seq<T>)
    requires Distinct(NamesBy(xs, name))
    ensures Ascending(NamesBy(r, name)) && SameMembers(r, xs)
  {
    r := [];
    for i := 0 to |xs|
      invariant Ascending(NamesBy(r, name)) && SameMembers(r, xs[..i])
    {
      var x := xs[i];
      forall y | y in r ensures name(y) != name(x) {
        var k :| 0 <= k < i && xs[k] == y;
        assert NamesBy(xs, name)[k] == name(y) && NamesBy(xs, name)[i] == name(x);
      }
      assert xs[..i + 1] == xs[..i] + [x];
      r := Insert(r, x, name);
    }
    assert xs[..|xs|] == xs;
  }

  method Insert<T(!new)>(r: seq<T>, x: T, name: T -> string) returns (out: seq<T>)
    requires Ascending(NamesBy(r, name)) && forall y | y in r :: name(y) != name(x)
    ensures Ascending(NamesBy(out, name)) && SameMembers(out, r + [x])
  {
    var k := 0;
    while k < |r| && NameLess(name(r[k]), name(x))
      invariant k <= |r| && forall i | 0 <= i < k :: NameLess(name(r[i]), name(x))
    {
      k := k + 1;
    }
    out := r[..k] + [x] + r[k..];
    InsertAscends(r, x, k, name, out);
  }

  lemma InsertAscends<T(!new)>(r: seq<T>, x: T, k: nat, name: T -> string, out: seq<T>)
    requires Ascending(NamesBy(r, name)) && k <= |r| && out == r[..k] + [x] + r[k..]
    requires forall y | y in r :: name(y) != name(x)
    requires forall i | 0 <= i < k :: NameLess(name(r[i]), name(x))
    requires k < |r| ==> !NameLess(name(r[k]), name(x))
    ensures Ascending(NamesBy(out, name)) && SameMembers(out, r + [x])
  {
    var names := NamesBy(r, name);
    if k < |r| {
      NameOrder(names[k], name(x), name(x));
      assert r[k] in r;
    }
    InsertNames(names, name(x), k);
    assert NamesBy(out, name) == names[..k] + [name(x)] + names[k..];
    assert r == r[..k] + r[k..];
  }

  lemma InsertNames(names: seq<string>, n: string, k: nat)
    requires Ascending(names) && k <= |names|
    requires forall i | 0 <= i < k :: NameLess(names[i], n)
    requires k < |names| ==> NameLess(n, names[k])
    ensures Ascending(names[..k] + [n] + names[k..])
  {
    forall j | k <= j < |names| ensures NameLess(n, names[j]) {
      if j > k {
        NameOrder(n, names[k], names[j]);
      }
    }
  }

  lemma ConsAscends(first: string, names: seq<string>)
    requires Ascending(names) && forall n | n in names :: NameLess(first, n)
    ensures Ascending([first] + names)
  {
  }
}
