/** The sequence operations behind the `;`-list built-ins: JavaScript's
    `filter`, and `[...new Set(xs)]`, which drops repeated items and keeps
    each item where it first appears. */
module Lists {

  /** `xs.filter(p)`. */
  function Filter(xs: seq<string>, p: string -> bool): (r: seq<string>)
    ensures |r| <= |xs|
    ensures forall x :: x in r <==> x in xs && p(x)
  {
    if xs == [] then []
    else (if p(xs[0]) then [xs[0]] else []) + Filter(xs[1..], p)
  }

  lemma {:induction false} FilterSplitsMultiset(xs: seq<string>, p: string -> bool)
    ensures multiset(Filter(xs, p)) + multiset(Filter(xs, x => !p(x))) == multiset(xs)
  {
    if xs != [] {
      var q := x => !p(x);
      var h, t := xs[0], xs[1..];
      FilterSplitsMultiset(t, p);
      FilterStep(xs, p);
      FilterStep(xs, q);
      ConsMultiset(xs);
      if p(h) {
        ConsMultiset([h] + Filter(t, p));
        assert ([h] + Filter(t, p))[1..] == Filter(t, p);
      } else {
        ConsMultiset([h] + Filter(t, q));
        assert ([h] + Filter(t, q))[1..] == Filter(t, q);
      }
    }
  }

  /** One step of `filter`: the head is kept exactly when it passes. */
  lemma FilterStep(xs: seq<string>, p: string -> bool)
    requires xs != []
    ensures p(xs[0]) ==> Filter(xs, p) == [xs[0]] + Filter(xs[1..], p)
    ensures !p(xs[0]) ==> Filter(xs, p) == Filter(xs[1..], p)
  {
    if !p(xs[0]) {
      assert [] + Filter(xs[1..], p) == Filter(xs[1..], p);
    }
  }

  lemma ConsMultiset(xs: seq<string>)
    requires xs != []
    ensures multiset(xs) == multiset{xs[0]} + multiset(xs[1..])
  {
    assert xs == [xs[0]] + xs[1..];
  }

  lemma {:induction false} FilterOfAll(xs: seq<string>, p: string -> bool)
    requires forall i | 0 <= i < |xs| :: p(xs[i])
    ensures Filter(xs, p) == xs
  {
    if xs != [] { FilterOfAll(xs[1..], p); }
  }

  predicate NoDuplicates(xs: seq<string>) {
    forall i, j | 0 <= i < j < |xs| :: xs[i] != xs[j]
  }

  /** Where `x` first appears in `xs`. */
  function FirstIndex(xs: seq<string>, x: string): (k: nat)
    requires x in xs
    ensures k < |xs| && xs[k] == x
    ensures forall j | 0 <= j < k :: xs[j] != x
  {
    if xs[0] == x then 0 else 1 + FirstIndex(xs[1..], x)
  }

  /** The items of `r` come in the order of their first appearance in `xs`. */
  predicate InFirstAppearanceOrder(xs: seq<string>, r: seq<string>)
    requires forall i | 0 <= i < |r| :: r[i] in xs
  {
    forall i, j | 0 <= i < j < |r| :: FirstIndex(xs, r[i]) < FirstIndex(xs, r[j])
  }

  /** The items of `xs` not in `seen`, each at its first appearance. */
  function DedupFrom(xs: seq<string>, seen: set<string>): (r: seq<string>)
    ensures forall x :: x in r <==> x in xs && x !in seen
  {
    if xs == [] then []
    else if xs[0] in seen then DedupFrom(xs[1..], seen)
    else [xs[0]] + DedupFrom(xs[1..], seen + {xs[0]})
  }

  /** `[...new Set(xs)]`. */
  function Dedup(xs: seq<string>): (r: seq<string>)
    ensures forall x :: x in r <==> x in xs
  {
    DedupFrom(xs, {})
  }

  lemma {:induction false} DedupFromNoDuplicates(xs: seq<string>, seen: set<string>)
    ensures NoDuplicates(DedupFrom(xs, seen))
  {
    if xs != [] {
      if xs[0] in seen {
        DedupFromNoDuplicates(xs[1..], seen);
      } else {
        DedupFromNoDuplicates(xs[1..], seen + {xs[0]});
        var tail := DedupFrom(xs[1..], seen + {xs[0]});
        assert xs[0] !in tail;
      }
    }
  }

  lemma FirstIndexPastHead(xs: seq<string>, y: string)
    requires y in xs && y != xs[0]
    ensures y in xs[1..] && FirstIndex(xs, y) == 1 + FirstIndex(xs[1..], y)
  {
  }

  /** Putting an item in front, or dropping the head of `xs`, keeps the
      order of first appearance. */
  lemma ShiftOrder(xs: seq<string>, tail: seq<string>, keepHead: bool)
    requires xs != []
    requires forall i | 0 <= i < |tail| :: tail[i] in xs[1..] && tail[i] != xs[0]
    requires InFirstAppearanceOrder(xs[1..], tail)
    ensures var r := (if keepHead then [xs[0]] else []) + tail;
      forall i | 0 <= i < |r| :: r[i] in xs
    ensures InFirstAppearanceOrder(xs, (if keepHead then [xs[0]] else []) + tail)
  {
    TailPastHead(xs, tail);
    if keepHead {
      var r := [xs[0]] + tail;
      forall i, j | 0 <= i < j < |r| ensures FirstIndex(xs, r[i]) < FirstIndex(xs, r[j]) {
        assert r[j] == tail[j - 1];
        if i > 0 {
          assert r[i] == tail[i - 1];
        }
      }
    } else {
      assert [] + tail == tail;
    }
  }

  /** Items of `xs[1..]` other than the head keep their order in `xs`,
      one place further on. */
  lemma TailPastHead(xs: seq<string>, tail: seq<string>)
    requires xs != []
    requires forall i | 0 <= i < |tail| :: tail[i] in xs[1..] && tail[i] != xs[0]
    requires InFirstAppearanceOrder(xs[1..], tail)
    ensures forall i | 0 <= i < |tail| :: tail[i] in xs && 0 < FirstIndex(xs, tail[i])
    ensures InFirstAppearanceOrder(xs, tail)
  {
    forall k | 0 <= k < |tail| ensures FirstIndex(xs, tail[k]) == 1 + FirstIndex(xs[1..], tail[k]) {
      FirstIndexPastHead(xs, tail[k]);
    }
  }

  lemma {:induction false} DedupFromOrder(xs: seq<string>, seen: set<string>)
    ensures InFirstAppearanceOrder(xs, DedupFrom(xs, seen))
  {
    if xs != [] {
      var keep := xs[0] !in seen;
      var seen' := if keep then seen + {xs[0]} else seen;
      DedupFromOrder(xs[1..], seen');
      var tail := DedupFrom(xs[1..], seen');
      forall i | 0 <= i < |tail| ensures tail[i] in xs[1..] && tail[i] != xs[0] {
        assert tail[i] in tail && xs[0] in seen';
      }
      ShiftOrder(xs, tail, keep);
      if keep {
        assert DedupFrom(xs, seen) == [xs[0]] + tail;
      } else {
        assert DedupFrom(xs, seen) == [] + tail;
      }
    }
  }

  /** `[...new Set(xs)]` holds every item of `xs` once, ordered by first
      appearance. */
  lemma DedupSpec(xs: seq<string>)
    ensures var r := Dedup(xs);
      && (forall x :: x in r <==> x in xs)
      && NoDuplicates(r)
      && InFirstAppearanceOrder(xs, r)
  {
    DedupFromNoDuplicates(xs, {});
    DedupFromOrder(xs, {});

  }

  lemma {:induction false} DedupFromOfDistinct(xs: seq<string>, seen: set<string>)
    requires NoDuplicates(xs)
    requires forall i | 0 <= i < |xs| :: xs[i] !in seen
    ensures DedupFrom(xs, seen) == xs
  {
    if xs != [] {
      DedupFromOfDistinct(xs[1..], seen + {xs[0]});
    }
  }

  /** A list without repeats is left as it is. */
  lemma DedupOfDistinct(xs: seq<string>)
    requires NoDuplicates(xs)
    ensures Dedup(xs) == xs
  {
    DedupFromOfDistinct(xs, {});
  }
}
