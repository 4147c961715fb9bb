/** The order JavaScript's default `Array.prototype.sort` puts strings in:
    character by character, a proper prefix first. The registry's sorted
    name list and the editor's field list are sorted with it. */
module StringOrder {
  import opened Lists

  /** `a` sorts strictly before `b`. */
  predicate Below(a: string, b: string)
    decreases |a|
  {
    if a == [] then b != []
    else if b == [] then false
    else a[0] < b[0] || (a[0] == b[0] && Below(a[1..], b[1..]))
  }

  predicate AtMost(a: string, b: string) { a == b || Below(a, b) }

  lemma {:induction false} BelowIrreflexive(a: string)
    ensures !Below(a, a)
    decreases |a|
  {
    if a != [] { BelowIrreflexive(a[1..]); }
  }

  lemma {:induction false} BelowTransitive(a: string, b: string, c: string)
    requires Below(a, b) && Below(b, c)
    ensures Below(a, c)
    decreases |a|
  {
    if a != [] && b != [] && c != [] && a[0] == b[0] == c[0] {
      BelowTransitive(a[1..], b[1..], c[1..]);
    }
  }

  lemma {:induction false} BelowTotal(a: string, b: string)
    ensures a == b || Below(a, b) || Below(b, a)
    decreases |a|
  {
    if a != [] && b != [] && a[0] == b[0] {
      BelowTotal(a[1..], b[1..]);
      if a[1..] == b[1..] { assert a == [a[0]] + a[1..] && b == [b[0]] + b[1..]; }
    }
  }

  lemma BelowAsymmetric(a: string, b: string)
    requires Below(a, b)
    ensures !Below(b, a)
  {
    if Below(b, a) {
      BelowTransitive(a, b, a);
      BelowIrreflexive(a);
    }
  }

  lemma AtMostTransitive(a: string, b: string, c: string)
    requires AtMost(a, b) && AtMost(b, c)
    ensures AtMost(a, c)
  {
    if a != b && b != c { BelowTransitive(a, b, c); }
  }

  predicate Sorted(xs: seq<string>) {
    forall i, j | 0 <= i < j < |xs| :: AtMost(xs[i], xs[j])
  }

  predicate StrictlySorted(xs: seq<string>) {
    forall i, j | 0 <= i < j < |xs| :: Below(xs[i], xs[j])
  }

  /** `m` is the first of `s` in sort order. */
  predicate IsLeast(m: string, s: set<string>) {
    m in s && forall y | y in s :: AtMost(m, y)
  }

  lemma {:induction false} LeastExists(s: set<string>)
    requires s != {}
    ensures exists m :: IsLeast(m, s)
    decreases |s|
  {
    var x :| x in s;
    if s != {x} {
      LeastExists(s - {x});
      var m :| IsLeast(m, s - {x});
      BelowTotal(x, m);
      if Below(x, m) {
        forall y | y in s ensures AtMost(x, y) {
          if y != x { AtMostTransitive(x, m, y); }
        }
        assert IsLeast(x, s);
      } else {
        assert IsLeast(m, s);
      }
    } else {
      assert IsLeast(x, s);
    }
  }

  lemma LeastUnique(s: set<string>)
    ensures forall a, b | IsLeast(a, s) && IsLeast(b, s) :: a == b
  {
    forall a, b | IsLeast(a, s) && IsLeast(b, s) ensures a == b {
      if a != b { BelowAsymmetric(a, b); }
    }
  }

  /** The items of `s` in ascending order: `Array.from(s).sort()`, and
      `Object.keys(o).sort()` for the keys of an object. */
  function SortedElements(s: set<string>): (r: seq<string>)
    ensures StrictlySorted(r)
    ensures forall x :: x in r <==> x in s
    ensures |r| == |s|
    decreases |s|
  {
    if s == {} then []
    else
      LeastExists(s);
      LeastUnique(s);
      var m :| IsLeast(m, s);
      var rest := SortedElements(s - {m});
      assert StrictlySorted([m] + rest) by {
        forall j | 0 <= j < |rest| ensures Below(m, rest[j]) {
          assert rest[j] in rest;
        }
        var r := [m] + rest;
        forall i, j | 0 <= i < j < |r| ensures Below(r[i], r[j]) {
          assert r[j] == rest[j - 1];
          if i > 0 { assert r[i] == rest[i - 1]; }
        }
      }
      [m] + rest
  }

  /** A strictly ascending list holds no repeats. */
  lemma StrictlySortedDistinct(xs: seq<string>)
    requires StrictlySorted(xs)
    ensures NoDuplicates(xs)
  {
    forall i, j | 0 <= i < j < |xs| ensures xs[i] != xs[j] {
      BelowIrreflexive(xs[i]);
    }
  }

  /** A set has exactly one strictly ascending listing. */
  lemma {:induction false} StrictlySortedUnique(xs: seq<string>, s: set<string>)
    requires StrictlySorted(xs)
    requires forall x :: x in xs <==> x in s
    ensures xs == SortedElements(s)
    decreases |xs|
  {
    if xs != [] {
      var m := xs[0];
      var rest := xs[1..];
      HeadIsLeast(xs, s);
      SortedHead(s, m);
      RestLists(xs, s);
      StrictlySortedUnique(rest, s - {m});
      assert xs == [m] + rest;
    }
  }

  /** The head of a strictly ascending listing of `s` is its least item. */
  lemma HeadIsLeast(xs: seq<string>, s: set<string>)
    requires StrictlySorted(xs) && xs != []
    requires forall x :: x in xs <==> x in s
    ensures IsLeast(xs[0], s)
  {
    forall y | y in s ensures AtMost(xs[0], y) {
      var k :| 0 <= k < |xs| && xs[k] == y;
    }
  }

  /** The ascending listing of `s` starts with its least item. */
  lemma SortedHead(s: set<string>, m: string)
    requires IsLeast(m, s)
    ensures SortedElements(s) == [m] + SortedElements(s - {m})
  {
    LeastUnique(s);
  }

  /** The rest of a strictly ascending listing lists the rest of the set,
      still ascending. */
  lemma RestLists(xs: seq<string>, s: set<string>)
    requires StrictlySorted(xs) && xs != []
    requires forall x :: x in xs <==> x in s
    ensures StrictlySorted(xs[1..])
    ensures forall x :: x in xs[1..] <==> x in s - {xs[0]}
  {
    StrictlySortedDistinct(xs);
    var rest := xs[1..];
    forall x | x in rest ensures x != xs[0] {
      var k :| 0 <= k < |rest| && rest[k] == x;
      assert xs[k + 1] == x;
    }
    forall x | x in s && x != xs[0] ensures x in rest {
      var k :| 0 <= k < |xs| && xs[k] == x;
      assert rest[k - 1] == x;
    }
  }
}
